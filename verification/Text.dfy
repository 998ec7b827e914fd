/** Comma-separated lists: splitting, trimming, and the grammar the resource definition allows for such lists. */
module Text {

  function Split(s: string, sep: char): (fields: seq<string>)
    ensures fields != []
  {
    if s == [] then [""]
    else if s[0] == sep then [""] + Split(s[1..], sep)
    else
      var rest := Split(s[1..], sep);
      [[s[0]] + rest[0]] + rest[1..]
  }

  function Join(fields: seq<string>, sep: char): string
    requires fields != []
  {
    if |fields| == 1 then fields[0] else fields[0] + [sep] + Join(fields[1..], sep)
  }

  ghost predicate Free(fields: seq<string>, sep: char) {
    forall f :: f in fields ==> sep !in f
  }

  /** Splitting loses nothing, and no field keeps a separator. */
  lemma {:induction false} JoinSplit(s: string, sep: char)
    ensures Join(Split(s, sep), sep) == s
    ensures Free(Split(s, sep), sep)
  {
    if s == [] {
    } else {
      JoinSplit(s[1..], sep);
      var rest := Split(s[1..], sep);
      assert s == [s[0]] + s[1..];
      if s[0] == sep {
        assert Split(s, sep)[1..] == rest;
      } else {
        var fields := Split(s, sep);
        assert fields[1..] == rest[1..];
        assert forall f :: f in fields ==> f == fields[0] || f in rest;
      }
    }
  }

  lemma {:induction false} SplitPrefix(f: string, tail: string, sep: char)
    requires sep !in f
    ensures Split(f + [sep] + tail, sep) == [f] + Split(tail, sep)
    ensures Split(f, sep) == [f]
  {
    var all := f + [sep] + tail;
    if f == [] {
      assert all[1..] == tail;
    } else {
      assert sep !in f[1..];
      SplitPrefix(f[1..], tail, sep);
      assert all[1..] == f[1..] + [sep] + tail;
      assert [f[0]] + f[1..] == f;
    }
  }

  /** Separator-free fields come back from their join. */
  lemma {:induction false} SplitJoin(fields: seq<string>, sep: char)
    requires fields != [] && Free(fields, sep)
    ensures Split(Join(fields, sep), sep) == fields
  {
    assert fields[0] in fields;
    if |fields| == 1 {
      SplitPrefix(fields[0], "", sep);
      assert fields == [fields[0]];
    } else {
      assert forall f :: f in fields[1..] ==> f in fields;
      SplitJoin(fields[1..], sep);
      SplitPrefix(fields[0], Join(fields[1..], sep), sep);
      assert fields == [fields[0]] + fields[1..];
    }
  }

  /** The characters trimming removes. */
  predicate IsSpace(c: char) {
    var n := c as int;
    || 0x09 <= n <= 0x0d || n == 0x20 || n == 0x85 || n == 0xa0 || n == 0x1680 || 0x2000 <= n <= 0x200a
    || n == 0x2028 || n == 0x2029 || n == 0x202f || n == 0x205f || n == 0x3000
  }

  function TrimLeft(s: string): string {
    if s != [] && IsSpace(s[0]) then TrimLeft(s[1..]) else s
  }

  function TrimRight(s: string): string {
    if s != [] && IsSpace(s[|s| - 1]) then TrimRight(s[..|s| - 1]) else s
  }

  function Trim(s: string): string {
    TrimRight(TrimLeft(s))
  }

  ghost predicate AllSpace(s: string) {
    forall c :: c in s ==> IsSpace(c)
  }

  /** A core with no space at its ends is what remains when margins of spaces are trimmed away. */
  lemma {:induction false} TrimMargins(left: string, core: string, right: string)
    requires AllSpace(left) && AllSpace(right)
    requires core != [] && !IsSpace(core[0]) && !IsSpace(core[|core| - 1])
    ensures Trim(left + core + right) == core
    decreases |left| + |right|
  {
    var s := left + core + right;
    if left != [] {
      assert s[0] == left[0] && left[0] in left;
      assert s[1..] == left[1..] + core + right;
      TrimMargins(left[1..], core, right);
    } else {
      assert s == core + right;
      assert TrimLeft(s) == s;
      TrimRightMargin(core, right);
    }
  }

  lemma {:induction false} TrimRightMargin(core: string, right: string)
    requires AllSpace(right)
    requires core != [] && !IsSpace(core[|core| - 1])
    ensures TrimRight(core + right) == core
  {
    if right == [] {
      assert core + right == core;
    } else {
      var n := |right| - 1;
      assert right[n] in right;
      assert (core + right)[..|core + right| - 1] == core + right[..n];
      TrimRightMargin(core, right[..n]);
    }
  }

  // ---------- membership in a list ----------

  predicate AnyTrimmed(values: seq<string>, value: string) {
    values != [] && (Trim(values[0]) == value || AnyTrimmed(values[1..], value))
  }

  /** Whether a comma-separated list names `value`. */
  predicate Contains(commaSeparated: string, value: string) {
    AnyTrimmed(Split(commaSeparated, ','), value)
  }

  lemma {:induction false} AnyTrimmedIsMembership(values: seq<string>, value: string)
    ensures AnyTrimmed(values, value) <==> exists i :: 0 <= i < |values| && Trim(values[i]) == value
  {
    if values == [] {
    } else {
      AnyTrimmedIsMembership(values[1..], value);
      if AnyTrimmed(values[1..], value) {
        var i :| 0 <= i < |values[1..]| && Trim(values[1..][i]) == value;
        assert Trim(values[i + 1]) == value;
      }
      if i :| 0 < i < |values| && Trim(values[i]) == value {
        assert values[1..][i - 1] == values[i];
      }
    }
  }

  // ---------- the grammar of an exclude entry's secretName ----------

  predicate NameChar(c: char) {
    'a' <= c <= 'z' || 'A' <= c <= 'Z' || '0' <= c <= '9' || c == '.' || c == '_' || c == '-'
  }

  predicate GapChar(c: char) {
    c == '\t' || c == '\n' || c as int == 0x0c || c == '\r' || c == ' '
  }

  ghost predicate IsName(s: string) {
    s != [] && forall c :: c in s ==> NameChar(c)
  }

  ghost predicate IsGap(s: string) {
    forall c :: c in s ==> GapChar(c)
  }

  ghost predicate WellFormed(names: seq<string>, gaps: seq<string>) {
    && names != [] && |gaps| == |names| - 1
    && (forall n :: n in names ==> IsName(n))
    && (forall g :: g in gaps ==> IsGap(g))
  }

  /** A name, then any number of: a comma, some white space, a name. */
  function Render(names: seq<string>, gaps: seq<string>): string
    requires names != [] && |gaps| == |names| - 1
  {
    Join(Padded(names, gaps), ',')
  }

  /** The text between commas: every name but the first is preceded by its gap. */
  function Padded(names: seq<string>, gaps: seq<string>): (fields: seq<string>)
    requires names != [] && |gaps| == |names| - 1
    ensures |fields| == |names|
  {
    seq(|names|, i requires 0 <= i < |names| => if i == 0 then names[0] else gaps[i - 1] + names[i])
  }

  lemma PaddedField(names: seq<string>, gaps: seq<string>, i: nat)
    requires WellFormed(names, gaps) && i < |names|
    ensures ',' !in Padded(names, gaps)[i]
    ensures Trim(Padded(names, gaps)[i]) == names[i]
  {
    var gap := if i == 0 then "" else gaps[i - 1];
    var name := names[i];
    assert name in names && (i > 0 ==> gap in gaps);
    assert IsGap(gap) && IsName(name);
    assert AllSpace(gap);
    assert name[0] in name && name[|name| - 1] in name;
    assert Padded(names, gaps)[i] == gap + name + "";
    TrimMargins(gap, name, "");
  }

  /** Splitting and trimming a string of the grammar recovers exactly the listed names. */
  lemma GrammarRoundTrip(names: seq<string>, gaps: seq<string>)
    requires WellFormed(names, gaps)
    ensures |Split(Render(names, gaps), ',')| == |names|
    ensures forall i :: 0 <= i < |names| ==> Trim(Split(Render(names, gaps), ',')[i]) == names[i]
  {
    var fields := Padded(names, gaps);
    forall i | 0 <= i < |names|
      ensures ',' !in fields[i] && Trim(fields[i]) == names[i]
    {
      PaddedField(names, gaps, i);
    }
    SplitJoin(fields, ',');
  }

  ghost predicate InSecretNameGrammar(s: string) {
    exists names, gaps :: WellFormed(names, gaps) && Render(names, gaps) == s
  }

  ghost function ListedNames(s: string): seq<string>
    requires InSecretNameGrammar(s)
  {
    var names, gaps :| WellFormed(names, gaps) && Render(names, gaps) == s;
    names
  }

  /** A string of the grammar lists one sequence of names, however it is laid out. */
  lemma GrammarIsUnambiguous(names: seq<string>, gaps: seq<string>)
    requires WellFormed(names, gaps)
    ensures InSecretNameGrammar(Render(names, gaps)) && ListedNames(Render(names, gaps)) == names
  {
    var s := Render(names, gaps);
    var names', gaps' :| WellFormed(names', gaps') && Render(names', gaps') == s && ListedNames(s) == names';
    GrammarRoundTrip(names, gaps);
    GrammarRoundTrip(names', gaps');
  }

  /** For every string of the grammar, the test answers membership among the listed names. */
  lemma ContainsIsMembership(s: string, value: string)
    requires InSecretNameGrammar(s)
    ensures Contains(s, value) <==> value in ListedNames(s)
  {
    var names := ListedNames(s);
    var gaps :| WellFormed(names, gaps) && Render(names, gaps) == s;
    GrammarRoundTrip(names, gaps);
    AnyTrimmedIsMembership(Split(s, ','), value);
    assert value in names <==> exists i :: 0 <= i < |names| && names[i] == value;
  }

  /** The grammar of the namespace field has no comma, so a string of it selects one namespace: itself. */
  lemma NamespacePatternIsOneField(s: string)
    requires s != [] && forall c :: c in s ==> NameChar(c) && c != '.'
    ensures Split(s, ',') == [s] && Trim(s) == s
  {
    SplitPrefix(s, "", ',');
    assert s[0] in s && s[|s| - 1] in s;
    assert "" + s + "" == s;
    TrimMargins("", s, "");
  }
}
