/** Placeholder substitution: sequential `strings.ReplaceAll` passes against one simultaneous substitution.

    Everything here holds for any table whose names have the `{{name}}` shape and whose values are
    made of token characters; module Placeholders supplies the table of a date.
 */
module Renderer {

  datatype Placeholder = Placeholder(name: string, value: string)

  /** `strings.ReplaceAll`: leftmost, non-overlapping occurrences. */
  function ReplaceAll(s: string, old_: string, new_: string): string
    requires old_ != []
  {
    if s == [] then []
    else if old_ <= s then new_ + ReplaceAll(s[|old_|..], old_, new_)
    else [s[0]] + ReplaceAll(s[1..], old_, new_)
  }

  /** The first row whose name starts `s`, or the table's length. */
  function Find(table: seq<Placeholder>, s: string): (i: nat)
    ensures i <= |table| && (i < |table| ==> table[i] in table && table[i].name <= s)
    ensures forall p :: p in table[..i] ==> !(p.name <= s)
  {
    if table == [] then 0
    else
      var front := table[..|table| - 1];
      var i := Find(front, s);
      if i < |front| then assert table[..i] == front[..i]; i
      else if table[|front|].name <= s then |front| else |table|
  }

  /** One left-to-right reading of the template, every name replaced by its value, all else copied. */
  function Substitute(table: seq<Placeholder>, s: string): string
    decreases |s|
  {
    if s == [] then []
    else
      var i := Find(table, s);
      if i < |table| && table[i].name != [] then table[i].value + Substitute(table, s[|table[i].name|..])
      else [s[0]] + Substitute(table, s[1..])
  }

  predicate IsValueChar(c: char) {
    '0' <= c <= '9' || c == '-' || c == 'W' || c == 'Q'
  }

  predicate IsValue(v: string) {
    v != [] && forall c :: c in v ==> IsValueChar(c)
  }

  predicate IsLetter(c: char) {
    'a' <= c <= 'z' || c == '_'
  }

  /** `{{...}}` with no brace in between. */
  predicate IsBraced(n: string) {
    && 4 <= |n| && n[0] == '{' && n[1] == '{' && n[|n| - 2] == '}' && n[|n| - 1] == '}'
    && forall i :: 2 <= i < |n| - 2 ==> n[i] != '{' && n[i] != '}'
  }

  predicate IsName(n: string) {
    IsBraced(n) && forall i :: 2 <= i < |n| - 2 ==> IsLetter(n[i])
  }

  predicate GoodTable(table: seq<Placeholder>) {
    && (forall p :: p in table ==> IsName(p.name) && IsValue(p.value))
    && forall i, j :: 0 <= i < j < |table| ==> table[i].name != table[j].name
  }

  // ---------------------------------------------------------------- names in a text

  /** At most one name starts a text, so the row found does not depend on the order of the rows. */
  lemma OneNameStarts(n: string, m: string, s: string)
    requires IsBraced(n) && IsBraced(m) && n <= s && m <= s
    ensures n == m
  {
    assert s[|n| - 2] == '}' && s[|n| - 1] == '}' && s[|m| - 2] == '}' && s[|m| - 1] == '}';
  }

  /** No name starts inside `{{...}}` but at its front, whatever follows. */
  lemma NamesDoNotOverlap(n: string, m: string, k: nat, rest: string)
    requires IsBraced(n) && IsBraced(m) && 1 <= k < |n|
    ensures !(m <= n[k..] + rest)
  {
    var t := n[k..] + rest;
    assert t[0] == n[k];
    assert k == 1 ==> t[1] == n[2];
  }

  /** No name reaches from the text before it into an opening `{{`. */
  lemma NoNameStraddles(n: string, a: string, b: string)
    requires IsBraced(n) && n <= a + b && a != [] && 2 <= |b| && b[0] == '{' && b[1] == '{'
    ensures n <= a
  {
    assert (a + b)[|a|] == b[0] && (a + b)[|a| + 1] == b[1];
    assert |n| <= |a|;
    assert (a + b)[..|n|] == a[..|n|];
  }

  lemma RowIsGood(table: seq<Placeholder>, p: Placeholder)
    requires GoodTable(table) && p in table
    ensures IsName(p.name) && IsBraced(p.name) && p.name != [] && p.value != [] && IsValueChar(p.value[0])
            && '{' !in p.value
    ensures forall c :: c in p.name ==> !IsValueChar(c)
  {
    assert p.value[0] in p.value;
    forall i | 0 <= i < |p.name| ensures !IsValueChar(p.name[i]) {
      assert 2 <= i < |p.name| - 2 ==> IsLetter(p.name[i]);
    }
  }

  lemma FindsRow(table: seq<Placeholder>, p: Placeholder, s: string)
    requires GoodTable(table) && p in table && p.name <= s
    ensures Find(table, s) < |table| && table[Find(table, s)] == p
  {
    var i := Find(table, s);
    assert table[..|table|] == table;
    RowIsGood(table, table[i]);
    RowIsGood(table, p);
    OneNameStarts(table[i].name, p.name, s);
    var j :| 0 <= j < |table| && table[j] == p;
    assert i == j;
  }

  lemma FindsNothing(table: seq<Placeholder>, s: string)
    requires forall p :: p in table ==> !(p.name <= s)
    ensures Find(table, s) == |table|
  {
  }

  lemma FoundNothing(table: seq<Placeholder>, s: string)
    requires Find(table, s) == |table|
    ensures forall p :: p in table ==> !(p.name <= s)
  {
    assert table[..|table|] == table;
  }

  // ---------------------------------------------------------------- one step of a reading

  lemma MatchStep(table: seq<Placeholder>, p: Placeholder, rest: string)
    requires GoodTable(table) && p in table
    ensures Substitute(table, p.name + rest) == p.value + Substitute(table, rest)
  {
    RowIsGood(table, p);
    FindsRow(table, p, p.name + rest);
    hide GoodTable, IsName, IsBraced;
    assert (p.name + rest)[|p.name|..] == rest;
  }

  lemma CopyStep(table: seq<Placeholder>, c: char, s: string)
    requires Find(table, [c] + s) == |table|
    ensures Substitute(table, [c] + s) == [c] + Substitute(table, s)
  {
    assert ([c] + s)[1..] == s;
  }

  lemma PassMatches(p: Placeholder, rest: string)
    requires p.name != []
    ensures ReplaceAll(p.name + rest, p.name, p.value) == p.value + ReplaceAll(rest, p.name, p.value)
  {
    assert (p.name + rest)[|p.name|..] == rest;
  }

  lemma PassCopies(p: Placeholder, c: char, s: string)
    requires p.name != [] && !(p.name <= [c] + s)
    ensures ReplaceAll([c] + s, p.name, p.value) == [c] + ReplaceAll(s, p.name, p.value)
  {
    assert ([c] + s)[1..] == s;
  }

  lemma {:induction false} PassSkips(v: string, rest: string, p: Placeholder)
    requires IsBraced(p.name) && '{' !in v
    ensures ReplaceAll(v + rest, p.name, p.value) == v + ReplaceAll(rest, p.name, p.value)
  {
    hide ReplaceAll;
    if v == [] {
      assert v + rest == rest;
    } else {
      assert v[0] in v;
      assert v + rest == [v[0]] + (v[1..] + rest);
      PassCopies(p, v[0], v[1..] + rest);
      PassSkips(v[1..], rest, p);
      assert [v[0]] + (v[1..] + ReplaceAll(rest, p.name, p.value)) == v + ReplaceAll(rest, p.name, p.value);
    }
  }

  lemma NoneStarts(table: seq<Placeholder>, n: string, k: nat, rest: string)
    requires GoodTable(table) && IsBraced(n) && k < |n|
    requires forall p :: p in table ==> p.name != n
    ensures Find(table, n[k..] + rest) == |table|
  {
    var t := n[k..] + rest;
    forall p | p in table ensures !(p.name <= t) {
      RowIsGood(table, p);
      if k > 0 {
        NamesDoNotOverlap(n, p.name, k, rest);
      } else if p.name <= t {
        OneNameStarts(p.name, n, t);
      }
    }
    FindsNothing(table, t);
  }

  /** A `{{...}}` that is no row is copied. */
  lemma {:induction false} OtherNameCopied(table: seq<Placeholder>, n: string, k: nat, rest: string)
    requires GoodTable(table) && IsBraced(n) && k <= |n|
    requires forall p :: p in table ==> p.name != n
    ensures Substitute(table, n[k..] + rest) == n[k..] + Substitute(table, rest)
    decreases |n| - k
  {
    hide GoodTable, IsBraced, Find, Substitute;
    if k == |n| {
      assert n[k..] + rest == rest;
    } else {
      NoneStarts(table, n, k, rest);
      assert n[k..] + rest == [n[k]] + (n[k + 1..] + rest);
      CopyStep(table, n[k], n[k + 1..] + rest);
      OtherNameCopied(table, n, k + 1, rest);
      assert [n[k]] + (n[k + 1..] + Substitute(table, rest)) == n[k..] + Substitute(table, rest);
    }
  }

  lemma ValueFirst(table: seq<Placeholder>, s: string)
    requires GoodTable(table) && s != []
    ensures s == [s[0]] + s[1..]
    ensures Substitute(table, s) != [] && (Find(table, s) < |table| ==> IsValueChar(Substitute(table, s)[0]))
  {
    if Find(table, s) < |table| {
      RowIsGood(table, table[Find(table, s)]);
    }
  }

  /** A name that starts the output was there in the template: values neither contain nor complete one. */
  lemma {:induction false} NamesComeFromTemplate(table: seq<Placeholder>, w: string, s: string)
    requires GoodTable(table) && w <= Substitute(table, s) && forall c :: c in w ==> !IsValueChar(c)
    ensures w <= s
    decreases |s|
  {
    hide GoodTable, Find, IsValueChar;
    if w != [] && s != [] {
      assert w[0] in w && w[0] == Substitute(table, s)[0];
      ValueFirst(table, s);
      var out := Substitute(table, s[1..]);
      CopyStep(table, s[0], s[1..]);
      assert s == [s[0]] + s[1..] && w == [w[0]] + w[1..];
      assert Substitute(table, s)[1..] == out;
      assert w[1..] <= out;
      NamesComeFromTemplate(table, w[1..], s[1..]);
    }
  }

  // ---------------------------------------------------------------- the passes

  lemma SubTable(table: seq<Placeholder>, p: Placeholder)
    requires GoodTable(table + [p])
    ensures GoodTable(table) && p in table + [p] && forall q :: q in table ==> q.name != p.name
  {
    var more := table + [p];
    assert p in more && more[|table|] == p;
    assert forall q :: q in table ==> q in more;
    assert forall i :: 0 <= i < |table| ==> more[i] == table[i];
  }

  /** One more `ReplaceAll` pass over a simultaneous substitution is the simultaneous substitution with one more row. */
  lemma {:induction false} PassAddsRow(table: seq<Placeholder>, p: Placeholder, s: string)
    requires GoodTable(table + [p])
    ensures ReplaceAll(Substitute(table, s), p.name, p.value) == Substitute(table + [p], s)
    decreases |s|
  {
    SubTable(table, p);
    RowIsGood(table + [p], p);
    if s != [] {
      hide GoodTable, IsName, IsBraced, IsValueChar, Substitute, ReplaceAll;
      if Find(table, s) < |table| {
        var q := table[Find(table, s)];
        assert q in table && q in table + [p];
        var rest := s[|q.name|..];
        assert s == q.name + rest;
        RowIsGood(table, q);
        MatchStep(table, q, rest);
        MatchStep(table + [p], q, rest);
        PassSkips(q.value, Substitute(table, rest), p);
        PassAddsRow(table, p, rest);
      } else if p.name <= s {
        var rest := s[|p.name|..];
        assert s == p.name + rest && p.name[0..] == p.name;
        OtherNameCopied(table, p.name, 0, rest);
        PassMatches(p, Substitute(table, rest));
        MatchStep(table + [p], p, rest);
        PassAddsRow(table, p, rest);
      } else {
        var rest := s[1..];
        assert s == [s[0]] + rest;
        FoundNothing(table, s);
        FindsNothing(table + [p], s);
        CopyStep(table, s[0], rest);
        CopyStep(table + [p], s[0], rest);
        if p.name <= Substitute(table, s) {
          NamesComeFromTemplate(table, p.name, s);
        }
        PassCopies(p, s[0], Substitute(table, rest));
        PassAddsRow(table, p, rest);
      }
    }
  }

  lemma {:induction false} EmptyTableCopies(s: string)
    ensures Substitute([], s) == s
  {
    if s != [] {
      EmptyTableCopies(s[1..]);
    }
  }

  /** The loop of `Renderer.Render`: one `ReplaceAll` pass for each row, in order. */
  method ReplaceInOrder(table: seq<Placeholder>, template: string) returns (out: string)
    requires GoodTable(table)
    ensures out == Substitute(table, template)
  {
    hide Substitute, ReplaceAll, Find, IsValue;
    out := template;
    EmptyTableCopies(template);
    for i := 0 to |table|
      invariant out == Substitute(table[..i], template)
    {
      assert table[..i + 1] == table[..i] + [table[i]];
      PassAddsRow(table[..i], table[i], template);
      RowIsGood(table, table[i]);
      out := ReplaceAll(out, table[i].name, table[i].value);
    }
    assert table[..|table|] == table;
  }

  // ---------------------------------------------------------------- laws of rendering

  /** The order of the rows does not matter. */
  lemma {:induction false} OrderIrrelevant(table: seq<Placeholder>, other: seq<Placeholder>, s: string)
    requires GoodTable(table) && GoodTable(other) && forall p :: p in table <==> p in other
    ensures Substitute(table, s) == Substitute(other, s)
    decreases |s|
  {
    if s != [] {
      hide GoodTable, Substitute;
      if Find(table, s) < |table| {
        var p := table[Find(table, s)];
        assert p in table;
        RowIsGood(table, p);
        var rest := s[|p.name|..];
        assert s == p.name + rest;
        MatchStep(table, p, rest);
        MatchStep(other, p, rest);
        OrderIrrelevant(table, other, rest);
      } else {
        FoundNothing(table, s);
        FindsNothing(other, s);
        assert s == [s[0]] + s[1..];
        CopyStep(table, s[0], s[1..]);
        CopyStep(other, s[0], s[1..]);
        OrderIrrelevant(table, other, s[1..]);
      }
    }
  }

  lemma NotInValue(table: seq<Placeholder>, p: Placeholder, v: string, rest: string, i: nat)
    requires GoodTable(table) && p in table && IsValue(v) && i <= |v + rest|
    ensures |v| <= i ==> (v + rest)[i..] == rest[i - |v|..]
    ensures i < |v| ==> !(p.name <= (v + rest)[i..])
  {
    RowIsGood(table, p);
    if i < |v| {
      assert v[i] in v && IsValueChar(v[i]) && p.name[0] in p.name;
      assert (v + rest)[i..][0] == v[i];
    }
  }

  /** The output holds no name of the table at any position, not even one put together from values and text. */
  lemma {:induction false} NoNameLeft(table: seq<Placeholder>, p: Placeholder, s: string, i: nat)
    requires GoodTable(table) && p in table && i <= |Substitute(table, s)|
    ensures !(p.name <= Substitute(table, s)[i..])
    decreases |s|
  {
    RowIsGood(table, p);
    if s != [] {
      hide GoodTable, IsName, IsBraced, IsValueChar, Substitute;
      if Find(table, s) < |table| {
        var q := table[Find(table, s)];
        RowIsGood(table, q);
        var rest := s[|q.name|..];
        assert s == q.name + rest;
        MatchStep(table, q, rest);
        NotInValue(table, p, q.value, Substitute(table, rest), i);
        if |q.value| <= i {
          NoNameLeft(table, p, rest, i - |q.value|);
        }
      } else {
        FoundNothing(table, s);
        assert s == [s[0]] + s[1..];
        CopyStep(table, s[0], s[1..]);
        if i > 0 {
          assert Substitute(table, s)[i..] == Substitute(table, s[1..])[i - 1..];
          NoNameLeft(table, p, s[1..], i - 1);
        } else if p.name <= Substitute(table, s) {
          NamesComeFromTemplate(table, p.name, s);
        }
      }
    }
  }

  /** A text with no name in it is copied. */
  lemma {:induction false} NothingToReplace(table: seq<Placeholder>, s: string)
    requires forall p, i :: p in table && 0 <= i <= |s| ==> !(p.name <= s[i..])
    ensures Substitute(table, s) == s
  {
    hide Find;
    if s != [] {
      assert s[0..] == s;
      FindsNothing(table, s);
      forall p, i | p in table && 0 <= i <= |s[1..]| ensures !(p.name <= s[1..][i..]) {
        assert s[1..][i..] == s[i + 1..];
      }
      NothingToReplace(table, s[1..]);
    }
  }

  /** A second rendering, with these values or any others, changes nothing. */
  lemma RenderedIsFinal(table: seq<Placeholder>, other: seq<Placeholder>, s: string)
    requires GoodTable(table)
    requires forall q :: q in other ==> exists p :: p in table && p.name == q.name
    ensures Substitute(other, Substitute(table, s)) == Substitute(table, s)
  {
    hide GoodTable, Substitute;
    var out := Substitute(table, s);
    forall q, i | q in other && 0 <= i <= |out| ensures !(q.name <= out[i..]) {
      var p :| p in table && p.name == q.name;
      NoNameLeft(table, p, s, i);
    }
    NothingToReplace(other, out);
  }

  lemma NothingInFront(table: seq<Placeholder>, a: string, b: string)
    requires Find(table, a + b) == |table|
    ensures Find(table, a) == |table|
  {
    FoundNothing(table, a + b);
    forall p | p in table ensures !(p.name <= a) {
      assert p.name <= a ==> p.name <= a + b;
    }
    FindsNothing(table, a);
  }

  /** Reading `head` off the front of both `head + a` and `head + (a + b)` keeps a split a split. */
  lemma SplitStep(table: seq<Placeholder>, head: string, value: string, a: string, b: string)
    requires Substitute(table, head + a) == value + Substitute(table, a)
    requires Substitute(table, head + (a + b)) == value + Substitute(table, a + b)
    requires Substitute(table, a + b) == Substitute(table, a) + Substitute(table, b)
    ensures Substitute(table, (head + a) + b) == Substitute(table, head + a) + Substitute(table, b)
  {
    hide Substitute;
    assert (head + a) + b == head + (a + b);
    assert value + (Substitute(table, a) + Substitute(table, b))
           == (value + Substitute(table, a)) + Substitute(table, b);
  }

  lemma SplitCopied(table: seq<Placeholder>, a: string, b: string)
    requires a != [] && Find(table, a + b) == |table|
    ensures a == [a[0]] + a[1..]
    ensures Substitute(table, [a[0]] + a[1..]) == [a[0]] + Substitute(table, a[1..])
    ensures Substitute(table, [a[0]] + (a[1..] + b)) == [a[0]] + Substitute(table, a[1..] + b)
  {
    hide Substitute;
    NothingInFront(table, a, b);
    assert a == [a[0]] + a[1..] && a + b == [a[0]] + (a[1..] + b);
    CopyStep(table, a[0], a[1..]);
    CopyStep(table, a[0], a[1..] + b);
  }

  /** A text that opens with `{{` is rendered by itself, whatever stands before it. */
  lemma {:induction false} SplitsAtBraces(table: seq<Placeholder>, a: string, b: string)
    requires GoodTable(table) && 2 <= |b| && b[0] == '{' && b[1] == '{'
    ensures Substitute(table, a + b) == Substitute(table, a) + Substitute(table, b)
    decreases |a|
  {
    hide GoodTable, IsName, IsBraced;
    if a == [] {
      assert a + b == b;
    } else {
      var i := Find(table, a + b);
      if i < |table| {
        var p := table[i];
        RowIsGood(table, p);
        NoNameStraddles(p.name, a, b);
        var rest := a[|p.name|..];
        assert a == p.name + rest;
        SplitsAtBraces(table, rest, b);
        MatchStep(table, p, rest);
        MatchStep(table, p, rest + b);
        SplitStep(table, p.name, p.value, rest, b);
      } else {
        SplitCopied(table, a, b);
        SplitsAtBraces(table, a[1..], b);
        SplitStep(table, [a[0]], [a[0]], a[1..], b);
      }
    }
  }

  /** A supported placeholder becomes its value wherever it stands, and its surroundings are rendered on their own. */
  lemma SupportedIsReplaced(table: seq<Placeholder>, a: string, p: Placeholder, b: string)
    requires GoodTable(table) && p in table
    ensures Substitute(table, a + p.name + b) == Substitute(table, a) + p.value + Substitute(table, b)
  {
    RowIsGood(table, p);
    assert a + p.name + b == a + (p.name + b);
    SplitsAtBraces(table, a, p.name + b);
    MatchStep(table, p, b);
    hide *;
    assert Substitute(table, a) + (p.value + Substitute(table, b))
           == Substitute(table, a) + p.value + Substitute(table, b);
  }

  /** An unknown `{{...}}` stays verbatim wherever it stands. */
  lemma UnknownIsVerbatim(table: seq<Placeholder>, a: string, n: string, b: string)
    requires GoodTable(table) && IsBraced(n) && forall p :: p in table ==> p.name != n
    ensures Substitute(table, a + n + b) == Substitute(table, a) + n + Substitute(table, b)
  {
    assert n[0..] == n && a + n + b == a + (n + b);
    SplitsAtBraces(table, a, n + b);
    OtherNameCopied(table, n, 0, b);
    hide *;
    assert Substitute(table, a) + (n + Substitute(table, b)) == Substitute(table, a) + n + Substitute(table, b);
  }
}
