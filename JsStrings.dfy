/** The JavaScript string operations the application relies on: `trim`, the `\s`
    character class, `split` on a one-character separator, `Array.join`, and
    `replace(/\s+/g, rep)`. Strings are sequences of characters. */
module JsStrings {
  import opened Wrappers

  /** The characters `\s` matches and `trim` strips: ECMAScript's WhiteSpace and
      LineTerminator code points. */
  predicate IsWhitespace(c: char) {
    c == '\t' || c == '\n' || c == '\U{000B}' || c == '\U{000C}' || c == '\r' || c == ' '
    || c == '\U{00A0}' || c == '\U{1680}' || ('\U{2000}' <= c <= '\U{200A}')
    || c == '\U{2028}' || c == '\U{2029}' || c == '\U{202F}' || c == '\U{205F}'
    || c == '\U{3000}' || c == '\U{FEFF}'
  }

  /** Every character is whitespace. */
  predicate AllWhitespace(s: string) {
    s == [] || (IsWhitespace(s[0]) && AllWhitespace(s[1..]))
  }

  /** No character is whitespace. */
  predicate NoWhitespace(s: string) {
    s == [] || (!IsWhitespace(s[0]) && NoWhitespace(s[1..]))
  }

  /** JavaScript truthiness of a `string | null`: neither null nor empty. */
  predicate Truthy(o: Option<string>) {
    o.Some? && o.value != ""
  }

  /** `s.trimStart()`: drops the leading run of whitespace. */
  function TrimStart(s: string): (r: string)
    ensures |r| <= |s|
    ensures r == [] || !IsWhitespace(r[0])
  {
    if s != [] && IsWhitespace(s[0]) then TrimStart(s[1..]) else s
  }

  /** `s.trimEnd()`: drops the trailing run of whitespace. */
  function TrimEnd(s: string): (r: string)
    ensures |r| <= |s|
    ensures r == [] || !IsWhitespace(r[|r| - 1])
  {
    if s != [] && IsWhitespace(s[|s| - 1]) then TrimEnd(s[..|s| - 1]) else s
  }

  /** `trimStart` keeps a suffix of the string. */
  lemma {:induction false} TrimStartIsSuffix(s: string)
    ensures TrimStart(s) == s[|s| - |TrimStart(s)|..]
    decreases |s|
  {
    if s != [] && IsWhitespace(s[0]) {
      TrimStartIsSuffix(s[1..]);
    }
  }

  /** `trimEnd` keeps a prefix of the string. */
  lemma {:induction false} TrimEndIsPrefix(s: string)
    ensures TrimEnd(s) == s[..|TrimEnd(s)|]
    decreases |s|
  {
    if s != [] && IsWhitespace(s[|s| - 1]) {
      TrimEndIsPrefix(s[..|s| - 1]);
    }
  }

  /** What `trimStart` drops is whitespace. */
  lemma {:induction false} TrimStartDropsWhitespace(s: string)
    ensures AllWhitespace(s[..|s| - |TrimStart(s)|])
    decreases |s|
  {
    if s != [] && IsWhitespace(s[0]) {
      TrimStartDropsWhitespace(s[1..]);
      var k := |s| - |TrimStart(s)|;
      assert s[..k][1..] == s[1..][..k - 1];
    }
  }

  /** What `trimEnd` drops is whitespace. */
  lemma {:induction false} TrimEndDropsWhitespace(s: string)
    ensures AllWhitespace(s[|TrimEnd(s)|..])
    decreases |s|
  {
    if s != [] && IsWhitespace(s[|s| - 1]) {
      var u := s[..|s| - 1];
      TrimEndDropsWhitespace(u);
      var k := |TrimEnd(s)|;
      assert s[k..] == u[k..] + [s[|s| - 1]];
      assert AllWhitespace([s[|s| - 1]]) by { assert [s[|s| - 1]][1..] == []; }
      AllWhitespaceAppend(u[k..], [s[|s| - 1]]);
    }
  }

  /** A string of whitespace only trims to nothing. */
  lemma {:induction false} TrimStartAllWhitespace(s: string)
    requires AllWhitespace(s)
    ensures TrimStart(s) == []
    decreases |s|
  {
    if s != [] {
      TrimStartAllWhitespace(s[1..]);
    }
  }

  lemma {:induction false} AllWhitespaceAppend(a: string, b: string)
    ensures AllWhitespace(a + b) <==> AllWhitespace(a) && AllWhitespace(b)
    decreases |a|
  {
    if a == [] {
      assert a + b == b;
    } else {
      assert (a + b)[0] == a[0] && (a + b)[1..] == a[1..] + b;
      AllWhitespaceAppend(a[1..], b);
    }
  }

  lemma {:induction false} NoWhitespaceAppend(a: string, b: string)
    ensures NoWhitespace(a + b) <==> NoWhitespace(a) && NoWhitespace(b)
    decreases |a|
  {
    if a == [] {
      assert a + b == b;
    } else {
      assert (a + b)[0] == a[0] && (a + b)[1..] == a[1..] + b;
      NoWhitespaceAppend(a[1..], b);
    }
  }

  lemma {:induction false} AllWhitespaceAt(s: string, i: nat)
    requires AllWhitespace(s) && i < |s|
    ensures IsWhitespace(s[i])
    decreases i
  {
    if i > 0 {
      AllWhitespaceAt(s[1..], i - 1);
    }
  }

  lemma {:induction false} NoWhitespaceAt(s: string, i: nat)
    requires NoWhitespace(s) && i < |s|
    ensures !IsWhitespace(s[i])
    decreases i
  {
    if i > 0 {
      NoWhitespaceAt(s[1..], i - 1);
    }
  }

  /** `s.trim()`. */
  function Trim(s: string): (r: string)
    ensures |r| <= |s|
    ensures r == [] || (!IsWhitespace(r[0]) && !IsWhitespace(r[|r| - 1]))
  {
    TrimEndIsPrefix(TrimStart(s));
    TrimEnd(TrimStart(s))
  }

  /** `!s.trim()`: the string is empty once trimmed, which is to say it consists
      of whitespace only. */
  predicate IsBlank(s: string) {
    Trim(s) == []
  }

  /** A string is blank exactly when it consists of whitespace only. */
  lemma BlankIsAllWhitespace(s: string)
    ensures IsBlank(s) <==> AllWhitespace(s)
  {
    if AllWhitespace(s) {
      TrimStartAllWhitespace(s);
    } else {
      var t := TrimStart(s);
      TrimStartDropsWhitespace(s);
      TrimEndDropsWhitespace(t);
      assert s[..|s|] == s && t[0..] == t;
    }
  }

  /** `xs.join(sep)`: the empty array gives the empty string. */
  function Join(xs: seq<string>, sep: string): string {
    if |xs| == 0 then ""
    else if |xs| == 1 then xs[0]
    else xs[0] + sep + Join(xs[1..], sep)
  }

  /** `s.split(sep)` for a one-character separator: the pieces between
      separators, at least one (the empty string splits into `[""]`). */
  function Split(s: string, sep: char): (fields: seq<string>)
    ensures |fields| >= 1
    ensures forall i :: 0 <= i < |fields| ==> sep !in fields[i]
  {
    if s == [] then [""]
    else
      var rest := Split(s[1..], sep);
      if s[0] == sep then [""] + rest else [[s[0]] + rest[0]] + rest[1..]
  }

  /** `s.split(sep)[k]`, which is `undefined` when there are at most `k` fields. */
  function Field(s: string, sep: char, k: nat): (r: Option<string>)
    ensures k == 0 ==> r.Some?
    ensures r.Some? ==> sep !in r.value
  {
    var fields := Split(s, sep);
    if k < |fields| then Some(fields[k]) else None
  }

  /** `s.replace(/\s+/g, rep)`: every maximal run of whitespace becomes `rep`. */
  function ReplaceWhitespaceRuns(s: string, rep: string): string
    decreases |s|
  {
    if s == [] then []
    else if IsWhitespace(s[0]) then rep + ReplaceWhitespaceRuns(TrimStart(s), rep)
    else [s[0]] + ReplaceWhitespaceRuns(s[1..], rep)
  }

  /** `t` occurs in `s` at position `i`. */
  predicate OccursAt(t: string, s: string, i: int) {
    0 <= i && i + |t| <= |s| && s[i..i + |t|] == t
  }

  /** The strings `ts` occur in `s` one after another, without overlapping. */
  predicate OccurInOrder(s: string, ts: seq<string>)
    decreases |ts|
  {
    ts == [] || exists i :: 0 <= i <= |s| && OccursAt(ts[0], s, i) && OccurInOrder(s[i + |ts[0]|..], ts[1..])
  }

  predicate EndsWith(s: string, t: string) {
    |t| <= |s| && s[|s| - |t|..] == t
  }

  // ---------------------------------------------------------------------------
  // split and join

  lemma JoinCons(a: string, xs: seq<string>, sep: string)
    requires |xs| >= 1
    ensures Join([a] + xs, sep) == a + sep + Join(xs, sep)
  {
    assert ([a] + xs)[1..] == xs;
  }

  /** Joining the fields of a split with the separator gives back the string. */
  lemma {:induction false} JoinSplit(s: string, sep: char)
    ensures Join(Split(s, sep), [sep]) == s
    decreases |s|
  {
    if s != [] {
      var rest := Split(s[1..], sep);
      JoinSplit(s[1..], sep);
      if s[0] == sep {
        JoinCons("", rest, [sep]);
        assert s == [sep] + s[1..];
      } else {
        var fields := [[s[0]] + rest[0]] + rest[1..];
        if |rest| == 1 {
          assert fields == [[s[0]] + rest[0]];
          assert rest == [rest[0]];
        } else {
          assert Join(rest, [sep]) == rest[0] + [sep] + Join(rest[1..], [sep]);
          assert fields[1..] == rest[1..];
          assert Join(fields, [sep]) == [s[0]] + rest[0] + [sep] + Join(rest[1..], [sep]);
        }
        assert s == [s[0]] + s[1..];
      }
    }
  }

  /** A string without the separator splits into itself alone. */
  lemma {:induction false} SplitWithoutSeparator(a: string, sep: char)
    requires sep !in a
    ensures Split(a, sep) == [a]
    decreases |a|
  {
    if a != [] {
      SplitWithoutSeparator(a[1..], sep);
      assert a == [a[0]] + a[1..];
    }
  }

  /** A field followed by the separator is split off as the first field. */
  lemma {:induction false} SplitAfterField(a: string, sep: char, u: string)
    requires sep !in a
    ensures Split(a + [sep] + u, sep) == [a] + Split(u, sep)
    decreases |a|
  {
    if a == [] {
      assert a + [sep] + u == [sep] + u;
      assert ([sep] + u)[1..] == u;
    } else {
      var s := a + [sep] + u;
      assert s[0] == a[0] && s[1..] == a[1..] + [sep] + u;
      SplitAfterField(a[1..], sep, u);
      assert a == [a[0]] + a[1..];
    }
  }

  /** Splitting a join of separator-free fields gives back the fields. */
  lemma {:induction false} SplitJoin(fs: seq<string>, sep: char)
    requires |fs| >= 1
    requires forall i :: 0 <= i < |fs| ==> sep !in fs[i]
    ensures Split(Join(fs, [sep]), sep) == fs
    decreases |fs|
  {
    if |fs| == 1 {
      SplitWithoutSeparator(fs[0], sep);
    } else {
      SplitJoin(fs[1..], sep);
      SplitAfterField(fs[0], sep, Join(fs[1..], [sep]));
      assert fs == [fs[0]] + fs[1..];
    }
  }

  /** `(prefix + sep + d).split(sep)[1]` is `d` when neither part holds the separator. */
  lemma SecondFieldOfPair(prefix: string, sep: char, d: string)
    requires sep !in prefix && sep !in d
    ensures Field(prefix + [sep] + d, sep, 1) == Some(d)
  {
    SplitJoin([prefix, d], sep);
    assert Join([prefix, d], [sep]) == prefix + [sep] + d by {
      assert [prefix, d][1..] == [d];
    }
  }

  // ---------------------------------------------------------------------------
  // replace(/\s+/g, rep)

  /** The replacement leaves no whitespace behind, provided `rep` holds none. */
  lemma {:induction false} ReplaceLeavesNoWhitespace(s: string, rep: string)
    requires NoWhitespace(rep)
    ensures NoWhitespace(ReplaceWhitespaceRuns(s, rep))
    decreases |s|
  {
    if s != [] {
      if IsWhitespace(s[0]) {
        ReplaceLeavesNoWhitespace(TrimStart(s), rep);
        NoWhitespaceAppend(rep, ReplaceWhitespaceRuns(TrimStart(s), rep));
      } else {
        ReplaceLeavesNoWhitespace(s[1..], rep);
        NoWhitespaceAppend([s[0]], ReplaceWhitespaceRuns(s[1..], rep));
      }
    }
  }

  /** A string without whitespace is left as it is. */
  lemma {:induction false} ReplaceIdentity(s: string, rep: string)
    requires NoWhitespace(s)
    ensures ReplaceWhitespaceRuns(s, rep) == s
    decreases |s|
  {
    if s != [] {
      ReplaceIdentity(s[1..], rep);
      assert s == [s[0]] + s[1..];
    }
  }

  /** A non-empty run of whitespace alone becomes exactly one `rep`. */
  lemma ReplaceSingleRun(s: string, rep: string)
    requires s != [] && AllWhitespace(s)
    ensures ReplaceWhitespaceRuns(s, rep) == rep
  {
    TrimStartAllWhitespace(s);
  }

  lemma {:induction false} TrimStartConcat(x: string, y: string)
    ensures AllWhitespace(x) ==> TrimStart(x + y) == TrimStart(y)
    ensures !AllWhitespace(x) ==> TrimStart(x + y) == TrimStart(x) + y
    decreases |x|
  {
    if x == [] {
      assert x + y == y;
    } else {
      assert (x + y)[1..] == x[1..] + y;
      assert (x + y)[0] == x[0];
      TrimStartConcat(x[1..], y);
    }
  }

  /** The replacement works piecewise, as long as the cut does not fall inside a
      run of whitespace. */
  lemma {:induction false} ReplaceConcat(x: string, y: string, rep: string)
    requires x == [] || y == [] || !IsWhitespace(x[|x| - 1]) || !IsWhitespace(y[0])
    ensures ReplaceWhitespaceRuns(x + y, rep) == ReplaceWhitespaceRuns(x, rep) + ReplaceWhitespaceRuns(y, rep)
    decreases |x|
  {
    if x == [] {
      assert x + y == y;
    } else if IsWhitespace(x[0]) {
      ReplaceConcatRun(x, y, rep);
    } else {
      var s := x + y;
      assert s[0] == x[0] && s[1..] == x[1..] + y;
      ReplaceConcat(x[1..], y, rep);
    }
  }

  lemma {:induction false} ReplaceConcatRun(x: string, y: string, rep: string)
    requires x != [] && IsWhitespace(x[0])
    requires y == [] || !IsWhitespace(x[|x| - 1]) || !IsWhitespace(y[0])
    ensures ReplaceWhitespaceRuns(x + y, rep) == ReplaceWhitespaceRuns(x, rep) + ReplaceWhitespaceRuns(y, rep)
    decreases |x|, 1
  {
    TrimStartConcat(x, y);
    if AllWhitespace(x) {
      AllWhitespaceAt(x, |x| - 1);
      ReplaceAfterRun(x, y, rep);
    } else {
      var t := TrimStart(x);
      TrimStartDropsWhitespace(x);
      assert x[..|x|] == x;
      TrimStartIsSuffix(x);
      assert t != [] && t[|t| - 1] == x[|x| - 1];
      ReplaceConcat(t, y, rep);
      ReplaceSplitRun(x, y, rep);
    }
  }

  lemma ReplaceAfterRun(x: string, y: string, rep: string)
    requires x != [] && AllWhitespace(x)
    requires y == [] || !IsWhitespace(y[0])
    requires TrimStart(x + y) == TrimStart(y)
    ensures ReplaceWhitespaceRuns(x + y, rep) == ReplaceWhitespaceRuns(x, rep) + ReplaceWhitespaceRuns(y, rep)
  {
    var s := x + y;
    assert s != [] && IsWhitespace(s[0]) by { assert s[0] == x[0]; }
    assert TrimStart(y) == y;
    ReplaceSingleRun(x, rep);
    assert ReplaceWhitespaceRuns(s, rep) == rep + ReplaceWhitespaceRuns(y, rep);
  }

  lemma ReplaceSplitRun(x: string, y: string, rep: string)
    requires x != [] && IsWhitespace(x[0]) && !AllWhitespace(x)
    requires TrimStart(x + y) == TrimStart(x) + y
    requires ReplaceWhitespaceRuns(TrimStart(x) + y, rep) == ReplaceWhitespaceRuns(TrimStart(x), rep) + ReplaceWhitespaceRuns(y, rep)
    ensures ReplaceWhitespaceRuns(x + y, rep) == ReplaceWhitespaceRuns(x, rep) + ReplaceWhitespaceRuns(y, rep)
  {
    var s := x + y;
    assert s != [] && IsWhitespace(s[0]) by { assert s[0] == x[0]; }
    var t := TrimStart(x);
    calc {
      ReplaceWhitespaceRuns(s, rep);
      rep + ReplaceWhitespaceRuns(TrimStart(s), rep);
      rep + ReplaceWhitespaceRuns(t + y, rep);
      rep + (ReplaceWhitespaceRuns(t, rep) + ReplaceWhitespaceRuns(y, rep));
      (rep + ReplaceWhitespaceRuns(t, rep)) + ReplaceWhitespaceRuns(y, rep);
      ReplaceWhitespaceRuns(x, rep) + ReplaceWhitespaceRuns(y, rep);
    }
  }

  /** Two words with a run of whitespace between them become the two words
      joined by one `rep`. */
  lemma ReplaceTwoWords(first: string, gap: string, second: string, rep: string)
    requires NoWhitespace(first) && NoWhitespace(second) && first != [] && second != []
    requires gap != [] && AllWhitespace(gap)
    ensures ReplaceWhitespaceRuns(first + gap + second, rep) == first + rep + second
  {
    var tail := gap + second;
    assert ReplaceWhitespaceRuns(tail, rep) == rep + second by {
      ReplaceConcat(gap, second, rep);
      ReplaceSingleRun(gap, rep);
      ReplaceIdentity(second, rep);
    }
    assert ReplaceWhitespaceRuns(first + tail, rep) == first + ReplaceWhitespaceRuns(tail, rep) by {
      NoWhitespaceAt(first, |first| - 1);
      ReplaceConcat(first, tail, rep);
      ReplaceIdentity(first, rep);
    }
    assert first + gap + second == first + tail;
  }

  /** Replacing twice changes nothing more than replacing once. */
  lemma ReplaceIdempotent(s: string, rep: string)
    requires NoWhitespace(rep)
    ensures ReplaceWhitespaceRuns(ReplaceWhitespaceRuns(s, rep), rep) == ReplaceWhitespaceRuns(s, rep)
  {
    ReplaceLeavesNoWhitespace(s, rep);
    ReplaceIdentity(ReplaceWhitespaceRuns(s, rep), rep);
  }

  // ---------------------------------------------------------------------------
  // occurrence

  /** Putting `t` in front of a string in which `ts` occur in order makes
      `[t] + ts` occur in order, wherever the whole is preceded by `x`. */
  lemma OccurInOrderCons(x: string, t: string, rest: string, ts: seq<string>)
    requires OccurInOrder(rest, ts)
    ensures OccurInOrder(x + t + rest, [t] + ts)
  {
    var s := x + t + rest;
    assert s[|x|..|x| + |t|] == t;
    assert OccursAt(t, s, |x|);
    assert s[|x| + |t|..] == rest;
    assert ([t] + ts)[1..] == ts;
    assert 0 <= |x| <= |s| && OccursAt(([t] + ts)[0], s, |x|) && OccurInOrder(s[|x| + |([t] + ts)[0]|..], ([t] + ts)[1..]);
  }

  /** Whatever precedes a string, what occurs in order in it still does. */
  lemma OccurInOrderShift(p: string, s: string, ts: seq<string>)
    requires OccurInOrder(s, ts)
    ensures OccurInOrder(p + s, ts)
  {
    if ts != [] {
      var i :| 0 <= i <= |s| && OccursAt(ts[0], s, i) && OccurInOrder(s[i + |ts[0]|..], ts[1..]);
      var j := |p| + i;
      assert (p + s)[j..j + |ts[0]|] == s[i..i + |ts[0]|];
      assert (p + s)[j + |ts[0]|..] == s[i + |ts[0]|..];
      assert 0 <= j <= |p + s| && OccursAt(ts[0], p + s, j) && OccurInOrder((p + s)[j + |ts[0]|..], ts[1..]);
    }
  }

  /** A join lists its elements in their order. */
  lemma {:induction false} JoinOccurInOrder(xs: seq<string>, sep: string)
    ensures OccurInOrder(Join(xs, sep), xs)
    decreases |xs|
  {
    if |xs| == 1 {
      var s := Join(xs, sep);
      assert s == xs[0];
      assert OccursAt(xs[0], s, 0) && s[|xs[0]|..] == [] && xs[1..] == [];
      assert OccurInOrder(s[0 + |xs[0]|..], xs[1..]);
    } else if |xs| > 1 {
      var s, rest := Join(xs, sep), Join(xs[1..], sep);
      assert s == xs[0] + (sep + rest);
      JoinOccurInOrder(xs[1..], sep);
      OccurInOrderShift(sep, rest, xs[1..]);
      assert OccursAt(xs[0], s, 0) && s[|xs[0]|..] == sep + rest;
      assert OccurInOrder(s[0 + |xs[0]|..], xs[1..]);
    }
  }

  /** Appending an element to a non-empty list appends the separator and it. */
  lemma {:induction false} JoinSnoc(xs: seq<string>, x: string, sep: string)
    requires |xs| >= 1
    ensures Join(xs + [x], sep) == Join(xs, sep) + sep + x
    decreases |xs|
  {
    if |xs| == 1 {
      assert (xs + [x])[1..] == [x];
    } else {
      assert (xs + [x])[1..] == xs[1..] + [x];
      JoinSnoc(xs[1..], x, sep);
    }
  }
}
