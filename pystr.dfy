/** The small option type used throughout the model. */
module Optional {
  datatype Option<+T> = None | Some(value: T)
}

/**
 * The Python string operations the core relies on, written out with their
 * exact Python semantics: `str.strip()`, `startswith`, `endswith`, the `in`
 * substring test, `str.find`, `str.split(sep)`, `sep.join(parts)`,
 * `str.replace(old, new)` and `str(int)`.
 */
module PyStr {
  import opened Optional

  /** `c.isspace()` in Python 3: the characters `str.strip()` removes. */
  predicate IsSpace(c: char) {
    c == ' ' || c == '\t' || c == '\n' || c == '\r' || c == '\U{B}' || c == '\U{C}'
    || ('\U{1C}' <= c <= '\U{1F}') || c == '\U{85}' || c == '\U{A0}' || c == '\U{1680}'
    || ('\U{2000}' <= c <= '\U{200A}') || c == '\U{2028}' || c == '\U{2029}' || c == '\U{202F}'
    || c == '\U{205F}' || c == '\U{3000}'
  }

  predicate AllSpace(s: string) {
    forall k :: 0 <= k < |s| ==> IsSpace(s[k])
  }

  /** `s.lstrip()`: the suffix left after dropping leading whitespace. */
  function LStrip(s: string): string {
    if |s| > 0 && IsSpace(s[0]) then LStrip(s[1..]) else s
  }

  /** `s.rstrip()`: the prefix left after dropping trailing whitespace. */
  function RStrip(s: string): string {
    if |s| > 0 && IsSpace(s[|s| - 1]) then RStrip(s[..|s| - 1]) else s
  }

  /** `s.strip()`. */
  function Strip(s: string): string {
    RStrip(LStrip(s))
  }

  /** `lstrip` drops exactly the leading run of whitespace. */
  lemma {:induction false} LStripSpec(s: string)
    ensures var r := LStrip(s);
            |r| <= |s| && r == s[|s| - |r|..] && AllSpace(s[..|s| - |r|]) && (r == [] || !IsSpace(r[0]))
  {
    if |s| > 0 && IsSpace(s[0]) {
      LStripSpec(s[1..]);
      var r := LStrip(s[1..]);
      assert s[1..][|s| - 1 - |r|..] == s[|s| - |r|..];
      assert forall k :: 0 < k < |s| - |r| ==> s[k] == s[1..][..|s| - 1 - |r|][k - 1];
    }
  }

  /** `rstrip` drops exactly the trailing run of whitespace. */
  lemma {:induction false} RStripSpec(s: string)
    ensures var r := RStrip(s);
            |r| <= |s| && r == s[..|r|] && AllSpace(s[|r|..]) && (r == [] || !IsSpace(r[|r| - 1]))
  {
    if |s| > 0 && IsSpace(s[|s| - 1]) {
      RStripSpec(s[..|s| - 1]);
      var r := RStrip(s[..|s| - 1]);
      assert forall k :: |r| <= k < |s| - 1 ==> s[k] == s[..|s| - 1][|r|..][k - |r|];
    }
  }

  /** `strip` leaves a slice of the text that neither starts nor ends with whitespace,
      and drops only whitespace around it. */
  lemma StripSpec(s: string)
    ensures var r := Strip(s);
            var i := |s| - |LStrip(s)|;
            |r| <= |s| && (r == [] || (!IsSpace(r[0]) && !IsSpace(r[|r| - 1])))
            && 0 <= i <= |s| - |r| && r == s[i..i + |r|]
            && AllSpace(s[..i]) && AllSpace(s[i + |r|..])
  {
    LStripSpec(s);
    var l := LStrip(s);
    RStripSpec(l);
    var r := RStrip(l);
    var i := |s| - |l|;
    assert r == s[i..i + |r|];
    assert s[i + |r|..] == l[|r|..];
    if r != [] {
      assert r[0] == l[0];
    }
  }

  /** A text that starts and ends with a non-space character is its own strip, and so
      is it with one more trailing space. */
  lemma StripTrimmed(s: string)
    requires |s| > 0 && !IsSpace(s[0]) && !IsSpace(s[|s| - 1])
    ensures Strip(s) == s
    ensures Strip(s + " ") == s
  {
    assert (s + " ")[0] == s[0];
    assert (s + " ")[..|s|] == s;
  }

  predicate StartsWith(s: string, p: string) {
    |p| <= |s| && s[..|p|] == p
  }

  /** A text that starts with `p + q` starts with `p`. */
  lemma StartsWithPrefix(s: string, p: string, q: string)
    requires StartsWith(s, p + q)
    ensures StartsWith(s, p)
  {
    assert s[..|p|] == (p + q)[..|p|];
  }

  predicate EndsWith(s: string, p: string) {
    |p| <= |s| && s[|s| - |p|..] == p
  }

  predicate OccursAt(s: string, p: string, i: nat) {
    i + |p| <= |s| && s[i..i + |p|] == p
  }

  /** `s.find(p, i)`, with `None` for Python's `-1`. */
  function FindFrom(s: string, p: string, i: nat): (r: Option<nat>)
    requires i <= |s|
    decreases |s| - i
    ensures r.Some? ==> i <= r.value <= |s| && OccursAt(s, p, r.value)
    ensures r.Some? ==> forall j :: i <= j < r.value ==> !OccursAt(s, p, j)
    ensures r.None? ==> forall j :: i <= j <= |s| ==> !OccursAt(s, p, j)
  {
    if OccursAt(s, p, i) then Some(i)
    else if i == |s| then None
    else FindFrom(s, p, i + 1)
  }

  /** `s.find(p)`: the first occurrence of `p` in `s`. */
  function Find(s: string, p: string): Option<nat> {
    FindFrom(s, p, 0)
  }

  /** An occurrence with none before it is the one `find` reports. */
  lemma FindIs(s: string, p: string, i: nat)
    requires OccursAt(s, p, i) && forall j :: 0 <= j < i ==> !OccursAt(s, p, j)
    ensures Find(s, p) == Some(i)
  {
  }

  /** Python's `p in s` on strings. */
  predicate Contains(s: string, p: string) {
    Find(s, p).Some?
  }

  lemma ContainsIff(s: string, p: string)
    ensures Contains(s, p) <==> exists i: nat :: i <= |s| && OccursAt(s, p, i)
  {
    if Contains(s, p) {
      assert OccursAt(s, p, Find(s, p).value);
    }
  }

  /** `s.split(sep)` for a non-empty separator. */
  function Split(s: string, sep: string): (r: seq<string>)
    requires |sep| > 0
    ensures |r| >= 1
    decreases |s|
  {
    match Find(s, sep)
    case None => [s]
    case Some(i) => [s[..i]] + Split(s[i + |sep|..], sep)
  }

  /** `sep.join(parts)`. */
  function Join(sep: string, parts: seq<string>): string {
    if |parts| == 0 then ""
    else if |parts| == 1 then parts[0]
    else parts[0] + sep + Join(sep, parts[1..])
  }

  /** Joining one more part adds the separator and that part at the end. */
  lemma {:induction false} JoinSnoc(sep: string, parts: seq<string>, x: string)
    requires |parts| >= 1
    ensures Join(sep, parts + [x]) == Join(sep, parts) + sep + x
    decreases |parts|
  {
    if |parts| == 1 {
      assert (parts + [x])[1..] == [x];
    } else {
      JoinSnoc(sep, parts[1..], x);
      assert (parts + [x])[1..] == parts[1..] + [x];
    }
  }

  lemma ConcatAssoc<T>(a: seq<T>, b: seq<T>, c: seq<T>)
    ensures a + (b + c) == (a + b) + c
  {
  }

  /** A join of two or more parts is the join of all but the last, the separator and the last part. */
  lemma JoinInitLast(sep: string, parts: seq<string>)
    requires |parts| >= 2
    ensures Join(sep, parts) == Join(sep, parts[..|parts| - 1]) + sep + parts[|parts| - 1]
  {
    var init := parts[..|parts| - 1];
    var last := parts[|parts| - 1];
    JoinSnoc(sep, init, last);
    assert init + [last] == parts;
  }

  /** `s.replace(pat, repl)` for a non-empty `pat`: every non-overlapping occurrence, left to right. */
  function Replace(s: string, pat: string, repl: string): string
    requires |pat| > 0
  {
    Join(repl, Split(s, pat))
  }

  /** A text without the pattern is left as it is by `replace`. */
  lemma ReplaceAbsent(s: string, pat: string, repl: string)
    requires |pat| > 0 && !Contains(s, pat)
    ensures Replace(s, pat, repl) == s
  {
  }

  /** A text holding a character contains it as a one-character string. */
  lemma ContainsChar(s: string, k: nat)
    requires k < |s|
    ensures Contains(s, [s[k]])
  {
    ContainsIff(s, [s[k]]);
    assert OccursAt(s, [s[k]], k);
  }

  /** The text before the first `a` and then before the first `c`, where `c` is the
      single first character of `a`, is the text before the first `c`. */
  lemma BeforeOfBefore(s: string, a: string, c: string)
    requires |a| > 0 && |c| == 1 && StartsWith(a, c)
    ensures Before(Before(s, a), c) == Before(s, c)
  {
    match Find(s, a)
    case None =>
    case Some(g) =>
      assert s[g..g + |a|] == a;
      assert OccursAt(s, c, g) by { assert s[g..g + 1] == a[..1]; }
      var f := Find(s, c).value;
      var x := s[..g];
      if f < g {
        assert OccursAt(x, c, f) by { assert x[f..f + 1] == s[f..f + 1]; }
        forall j | 0 <= j < f ensures !OccursAt(x, c, j) {
          assert !OccursAt(s, c, j);
          if j + 1 <= |x| { assert x[j..j + 1] == s[j..j + 1]; }
        }
        FindIs(x, c, f);
      } else {
        forall j | 0 <= j <= |x| ensures !OccursAt(x, c, j) {
          if j < |x| {
            assert !OccursAt(s, c, j);
            assert x[j..j + 1] == s[j..j + 1];
          }
        }
        ContainsIff(x, c);
      }
  }

  /** A text contains whatever any of its slices contains. */
  lemma ContainsSlice(s: string, i: nat, j: nat, p: string)
    requires i <= j <= |s|
    ensures Contains(s[i..j], p) ==> Contains(s, p)
  {
    if Contains(s[i..j], p) {
      var t := s[i..j];
      var k := Find(t, p).value;
      forall m | 0 <= m < |p| ensures s[i + k..i + k + |p|][m] == p[m] {
        assert t[k..k + |p|][m] == t[k + m] == s[i + k + m];
      }
      assert OccursAt(s, p, i + k);
      ContainsIff(s, p);
    }
  }

  /** `s.split(sep)[0]`: the text before the first `sep`, or all of `s`. */
  function Before(s: string, sep: string): (r: string)
    requires |sep| > 0
    ensures |r| <= |s| && r == s[..|r|]
    ensures !Contains(r, sep)
  {
    match Find(s, sep)
    case None => s
    case Some(i) =>
      ContainsIff(s[..i], sep);
      assert forall j: nat :: j <= i && OccursAt(s[..i], sep, j) ==> OccursAt(s, sep, j);
      s[..i]
  }

  lemma JoinCons(sep: string, a: string, tail: seq<string>)
    requires |tail| >= 1
    ensures Join(sep, [a] + tail) == a + sep + Join(sep, tail)
  {
    assert ([a] + tail)[1..] == tail;
  }

  /** Where the separator is found, the text is the piece before it, the separator
      and the rest, and the split goes on in the rest. */
  lemma SplitFound(s: string, sep: string, i: nat)
    requires |sep| > 0 && Find(s, sep) == Some(i)
    ensures Split(s, sep) == [s[..i]] + Split(s[i + |sep|..], sep)
    ensures s == s[..i] + sep + s[i + |sep|..]
  {
    assert OccursAt(s, sep, i);
    assert s == s[..i] + s[i..i + |sep|] + s[i + |sep|..];
  }

  /** Joining the pieces of a split with the same separator gives back the text. */
  lemma {:induction false} JoinSplit(s: string, sep: string)
    requires |sep| > 0
    ensures Join(sep, Split(s, sep)) == s
    decreases |s|
  {
    var f := Find(s, sep);
    if f.Some? {
      var i := f.value;
      var rest := s[i + |sep|..];
      JoinSplit(rest, sep);
      SplitFound(s, sep, i);
      JoinCons(sep, s[..i], Split(rest, sep));
    }
  }

  /** No piece of a split contains the separator. */
  lemma {:induction false} SplitPiecesFree(s: string, sep: string)
    requires |sep| > 0
    ensures forall k :: 0 <= k < |Split(s, sep)| ==> !Contains(Split(s, sep)[k], sep)
    decreases |s|
  {
    match Find(s, sep)
    case None =>
    case Some(i) =>
      SplitPiecesFree(s[i + |sep|..], sep);
      assert Split(s, sep)[0] == Before(s, sep);
  }

  /** The first piece of a split is the text before the first separator. */
  lemma SplitHead(s: string, sep: string)
    requires |sep| > 0
    ensures Split(s, sep)[0] == Before(s, sep)
  {
  }

  /** A text containing the separator splits into at least two pieces; the second
      is the text after the first separator, up to the next one. */
  lemma SplitSecond(s: string, sep: string)
    requires |sep| > 0 && Contains(s, sep)
    ensures |Split(s, sep)| >= 2
    ensures Split(s, sep)[1] == Before(s[Find(s, sep).value + |sep|..], sep)
  {
  }

  function DigitChar(d: nat): char
    requires d < 10
  {
    "0123456789"[d]
  }

  /** `str(n)` for a natural number: its decimal digits, most significant first. */
  function NatToString(n: nat): (r: string)
    ensures |r| >= 1
    ensures forall k :: 0 <= k < |r| ==> '0' <= r[k] <= '9'
    decreases n
  {
    if n < 10 then [DigitChar(n)] else NatToString(n / 10) + [DigitChar(n % 10)]
  }

  /** `str(i)` for any integer. */
  function IntToString(i: int): string {
    if i < 0 then "-" + NatToString(-i) else NatToString(i)
  }
}
