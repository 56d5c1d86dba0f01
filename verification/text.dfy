/** The slice of Go's `strings`, `strconv` and `path/filepath` packages that
    the game-library code relies on, written over `string` = `seq<char>`.
    Case mapping is ASCII-only. */
module Text {
  import opened Wrappers

  // ---------------------------------------------------------------------
  // Characters and case

  function LowerChar(c: char): char {
    if 'A' <= c <= 'Z' then (c as int + 32) as char else c
  }

  /** strings.ToLower restricted to ASCII letters. */
  function Lower(s: string): (r: string)
    ensures |r| == |s|
    ensures forall i :: 0 <= i < |s| ==> r[i] == LowerChar(s[i])
  {
    seq(|s|, i requires 0 <= i < |s| => LowerChar(s[i]))
  }

  lemma LowerAppend(a: string, b: string)
    ensures Lower(a + b) == Lower(a) + Lower(b)
  {
    var l, r := Lower(a + b), Lower(a) + Lower(b);
    assert forall k :: 0 <= k < |l| ==> l[k] == r[k];
  }

  /** strings.EqualFold restricted to ASCII letters. */
  predicate EqualFold(a: string, b: string) {
    Lower(a) == Lower(b)
  }

  /** Go's unicode.IsSpace: the Latin-1 spaces, then the code points with
      the Unicode White_Space property. */
  predicate IsSpace(c: char) {
    var n := c as int;
    n == 0x20 || (0x09 <= n <= 0x0D) || n == 0x85 || n == 0xA0 ||
    n == 0x1680 || (0x2000 <= n <= 0x200A) || n == 0x2028 || n == 0x2029 ||
    n == 0x202F || n == 0x205F || n == 0x3000
  }

  // ---------------------------------------------------------------------
  // Searching

  predicate OccursAt(s: string, sub: string, i: int) {
    0 <= i && i + |sub| <= |s| && s[i..i + |sub|] == sub
  }

  lemma OccursAtJoin(a: string, sub: string, b: string)
    ensures OccursAt(a + sub + b, sub, |a|)
  {
    assert (a + sub + b)[|a|..|a| + |sub|] == sub;
  }

  /** strings.Contains */
  predicate Contains(s: string, sub: string) {
    exists i :: 0 <= i <= |s| - |sub| && OccursAt(s, sub, i)
  }

  lemma ContainsEnd(a: string, sub: string)
    ensures Contains(a + sub, sub)
  {
    assert (a + sub)[|a|..|a| + |sub|] == sub;
    assert OccursAt(a + sub, sub, |a|);
  }

  lemma ContainsExtend(s: string, t: string, sub: string)
    requires Contains(s, sub)
    ensures Contains(s + t, sub)
  {
    var i :| 0 <= i <= |s| - |sub| && OccursAt(s, sub, i);
    assert (s + t)[i..i + |sub|] == s[i..i + |sub|];
    assert OccursAt(s + t, sub, i);
  }

  predicate HasPrefix(s: string, p: string) {
    |p| <= |s| && s[..|p|] == p
  }

  predicate HasSuffix(s: string, p: string) {
    |p| <= |s| && s[|s| - |p|..] == p
  }
  lemma SuffixOfConcat(a: string, p: string)
    ensures HasSuffix(a + p, p)
  {
    assert (a + p)[|a|..] == p;
  }


  lemma SlashSuffix(dir: string, file: string)
    ensures HasSuffix(dir + "/" + file, "/" + file)
  {
    assert dir + "/" + file == dir + ("/" + file);
    SuffixOfConcat(dir, "/" + file);
  }

  /** strings.TrimPrefix */
  function TrimPrefix(s: string, p: string): (r: string)
    ensures HasPrefix(s, p) ==> s == p + r
    ensures !HasPrefix(s, p) ==> r == s
  {
    if HasPrefix(s, p) then s[|p|..] else s
  }

  /** strings.TrimSuffix */
  function TrimSuffix(s: string, p: string): (r: string)
    ensures HasSuffix(s, p) ==> s == r + p
    ensures !HasSuffix(s, p) ==> r == s
  {
    if HasSuffix(s, p) then s[..|s| - |p|] else s
  }

  // ---------------------------------------------------------------------
  // Replacing

  /** strings.ReplaceAll for a non-empty pattern: non-overlapping matches,
      scanned left to right. */
  function ReplaceAll(s: string, pat: string, rep: string): string
    requires |pat| > 0
    decreases |s|
  {
    if |s| < |pat| then s
    else if s[..|pat|] == pat then rep + ReplaceAll(s[|pat|..], pat, rep)
    else [s[0]] + ReplaceAll(s[1..], pat, rep)
  }

  /** A prefix without the pattern's first character passes through unchanged. */
  lemma {:induction false} ReplaceAllSkip(a: string, b: string, pat: string, rep: string)
    requires |pat| > 0
    requires pat[0] !in a
    ensures ReplaceAll(a + b, pat, rep) == a + ReplaceAll(b, pat, rep)
    decreases |a|
  {
    if a == [] {
      assert a + b == b;
    } else {
      var c, t := a[0], a[1..] + b;
      assert a + b == [c] + t;
      if |[c] + t| >= |pat| {
        assert ([c] + t)[..|pat|][0] == c != pat[0];
      }
      ReplaceAllMiss(c, t, pat, rep);
      ReplaceAllSkip(a[1..], b, pat, rep);
      assert ReplaceAll(a + b, pat, rep) == [c] + (a[1..] + ReplaceAll(b, pat, rep));
      assert a == [c] + a[1..];
    }
  }

  lemma ReplaceAllShort(s: string, pat: string, rep: string)
    requires |pat| > 0 && |s| < |pat|
    ensures ReplaceAll(s, pat, rep) == s
  {
  }

  /** A leading occurrence of the pattern is replaced. */
  lemma ReplaceAllHit(b: string, pat: string, rep: string)
    requires |pat| > 0
    ensures ReplaceAll(pat + b, pat, rep) == rep + ReplaceAll(b, pat, rep)
  {
    assert (pat + b)[..|pat|] == pat;
    assert (pat + b)[|pat|..] == b;
  }

  /** A leading character that does not start the pattern is kept. */
  lemma ReplaceAllMiss(c: char, b: string, pat: string, rep: string)
    requires |pat| > 0
    requires |[c] + b| < |pat| || ([c] + b)[..|pat|] != pat
    ensures ReplaceAll([c] + b, pat, rep) == [c] + ReplaceAll(b, pat, rep)
  {
    assert ([c] + b)[1..] == b;
    if |[c] + b| < |pat| {
      ReplaceAllShort(b, pat, rep);
    }
  }

  /** The first position at or after `i` where `pat` occurs, if any. */
  function IndexFrom(s: string, pat: string, i: nat): (r: Option<nat>)
    requires i <= |s|
    ensures r.Some? ==> i <= r.value && OccursAt(s, pat, r.value)
    ensures r.Some? ==> forall j :: i <= j < r.value ==> !OccursAt(s, pat, j)
    ensures r.None? ==> forall j :: i <= j <= |s| ==> !OccursAt(s, pat, j)
    decreases |s| - i
  {
    if OccursAt(s, pat, i) then Some(i)
    else if i == |s| then None
    else IndexFrom(s, pat, i + 1)
  }

  /** strings.Index: the first occurrence of `pat` in `s`. */
  function IndexOf(s: string, pat: string): (r: Option<nat>)
    ensures r.Some? ==> OccursAt(s, pat, r.value)
    ensures r.Some? ==> forall j :: 0 <= j < r.value ==> !OccursAt(s, pat, j)
    ensures r.None? <==> !Contains(s, pat)
  {
    IndexFrom(s, pat, 0)
  }

  /** strings.Replace(s, pat, rep, 1): only the first occurrence is replaced. */
  function ReplaceFirst(s: string, pat: string, rep: string): (r: string)
    ensures !Contains(s, pat) ==> r == s
    ensures Contains(s, pat) ==> exists i :: OccursAt(s, pat, i) && (forall j :: 0 <= j < i ==> !OccursAt(s, pat, j))
                                          && r == s[..i] + rep + s[i + |pat|..]
  {
    match IndexOf(s, pat)
    case Some(i) => s[..i] + rep + s[i + |pat|..]
    case None => s
  }

  /** Replacing a single character everywhere (strings.ReplaceAll with
      one-character pattern and replacement). */
  function ReplaceChar(s: string, a: char, b: char): (r: string)
    ensures |r| == |s|
    ensures forall i :: 0 <= i < |s| ==> r[i] == (if s[i] == a then b else s[i])
  {
    if s == [] then [] else [if s[0] == a then b else s[0]] + ReplaceChar(s[1..], a, b)
  }

  lemma ReplaceCharIsReplaceAll(s: string, a: char, b: char)
    ensures ReplaceChar(s, a, b) == ReplaceAll(s, [a], [b])
  {
    if s != [] {
      assert s == [s[0]] + s[1..];
      ReplaceCharIsReplaceAll(s[1..], a, b);
    }
  }

  // ---------------------------------------------------------------------
  // Trimming, splitting, joining

  /** `r` is what is left of `s` after a leading run of spaces. */
  predicate LeftTrimmed(s: string, r: string) {
    |r| <= |s| && r == s[|s| - |r|..] && forall k :: 0 <= k < |s| - |r| ==> IsSpace(s[k])
  }

  /** `r` is what is left of `s` before a trailing run of spaces. */
  predicate RightTrimmed(s: string, r: string) {
    |r| <= |s| && r == s[..|r|] && forall k :: |r| <= k < |s| ==> IsSpace(s[k])
  }

  function TrimLeftSpace(s: string): (r: string)
    ensures LeftTrimmed(s, r)
    ensures r == [] || !IsSpace(r[0])
  {
    if s != [] && IsSpace(s[0]) then
      var r := TrimLeftSpace(s[1..]);
      assert forall k :: 1 <= k < |s| ==> s[k] == s[1..][k - 1];
      r
    else s
  }

  function TrimRightSpace(s: string): (r: string)
    ensures RightTrimmed(s, r)
    ensures r == [] || !IsSpace(r[|r| - 1])
  {
    if s != [] && IsSpace(s[|s| - 1]) then
      var r := TrimRightSpace(s[..|s| - 1]);
      assert forall k :: 0 <= k < |s| - 1 ==> s[k] == s[..|s| - 1][k];
      r
    else s
  }

  /** strings.TrimSpace: the middle of `s` between a run of leading and a
      run of trailing spaces. */
  function TrimSpace(s: string): (r: string)
    ensures r == [] || (!IsSpace(r[0]) && !IsSpace(r[|r| - 1]))
    ensures Trimmed(s, r, |s| - |TrimLeftSpace(s)|)
  {
    TrimmedOfParts(s, TrimLeftSpace(s), TrimRightSpace(TrimLeftSpace(s)));
    TrimRightSpace(TrimLeftSpace(s))
  }

  lemma TrimmedOfParts(s: string, l: string, r: string)
    requires LeftTrimmed(s, l) && RightTrimmed(l, r)
    requires l == [] || !IsSpace(l[0])
    requires r == [] || !IsSpace(r[|r| - 1])
    ensures Trimmed(s, r, |s| - |l|)
    ensures r == [] || !IsSpace(r[0])
  {
    var i := |s| - |l|;
    forall k | 0 <= k < |r| ensures r[k] == s[i + k] {
      assert r[k] == l[k] == s[i + k];
    }
    forall k | i + |r| <= k < |s| ensures IsSpace(s[k]) {
      assert s[k] == l[k - i];
    }
  }

  /** Trimming keeps out a character the input does not hold. */
  lemma TrimSpaceKeepsOut(s: string, c: char)
    requires c !in s
    ensures c !in TrimSpace(s)
  {
    var r, i := TrimSpace(s), |s| - |TrimLeftSpace(s)|;
    forall k | 0 <= k < |r| ensures r[k] != c {
      assert r[k] == s[i + k];
    }
  }

  /** `r` is `s[i..i + |r|]` and everything around it is space. */
  predicate Trimmed(s: string, r: string, i: int) {
    0 <= i && i + |r| <= |s| &&
    (forall k :: 0 <= k < |r| ==> r[k] == s[i + k]) &&
    (forall k :: 0 <= k < i ==> IsSpace(s[k])) &&
    (forall k :: i + |r| <= k < |s| ==> IsSpace(s[k]))
  }

  /** strings.Split with a one-character separator; "" splits into [""]. */
  function Split(s: string, sep: char): (parts: seq<string>)
    ensures |parts| >= 1
    ensures forall k :: 0 <= k < |parts| ==> sep !in parts[k]
    decreases |s|
  {
    if s == [] then [[]]
    else
      var rest := Split(s[1..], sep);
      if s[0] == sep then [[]] + rest
      else [[s[0]] + rest[0]] + rest[1..]
  }

  /** strings.Join with a one-character separator. */
  function Join(parts: seq<string>, sep: char): string {
    if parts == [] then []
    else if |parts| == 1 then parts[0]
    else parts[0] + [sep] + Join(parts[1..], sep)
  }

  lemma {:induction false} JoinSnoc(parts: seq<string>, x: string, sep: char)
    requires |parts| >= 1
    ensures Join(parts + [x], sep) == Join(parts, sep) + [sep] + x
    decreases |parts|
  {
    var ps := parts + [x];
    if |parts| == 1 {
      assert ps[1..] == [x];
    } else {
      assert ps[0] == parts[0];
      assert ps[1..] == parts[1..] + [x];
      JoinSnoc(parts[1..], x, sep);
    }
  }

  /** Splitting the join of separator-free parts gives the parts back. */
  lemma {:induction false} SplitJoin(parts: seq<string>, sep: char)
    requires |parts| >= 1
    requires forall k :: 0 <= k < |parts| ==> sep !in parts[k]
    ensures Split(Join(parts, sep), sep) == parts
    decreases |parts|
  {
    if |parts| == 1 {
      SplitNoSep(parts[0], sep);
    } else {
      SplitJoin(parts[1..], sep);
      SplitPrefix(parts[0], Join(parts[1..], sep), sep);
      assert parts == [parts[0]] + parts[1..];
    }
  }

  lemma {:induction false} SplitNoSep(s: string, sep: char)
    requires sep !in s
    ensures Split(s, sep) == [s]
    decreases |s|
  {
    if s != [] {
      SplitNoSep(s[1..], sep);
      assert [s[0]] + s[1..] == s;
    }
  }

  lemma {:induction false} SplitPrefix(a: string, b: string, sep: char)
    requires sep !in a
    ensures Split(a + [sep] + b, sep) == [a] + Split(b, sep)
    decreases |a|
  {
    var s := a + [sep] + b;
    if a == [] {
      assert s[1..] == b;
    } else {
      assert s[0] == a[0];
      assert s[1..] == a[1..] + [sep] + b;
      SplitPrefix(a[1..], b, sep);
      assert [a[0]] + a[1..] == a;
    }
  }

  /** The parts of [c] + t, given the parts of t. */
  function ConsPart(c: char, sep: char, rest: seq<string>): seq<string>
    requires |rest| >= 1
  {
    if c == sep then [[]] + rest else [[c] + rest[0]] + rest[1..]
  }

  /** One step of Split. */
  lemma SplitCons(c: char, t: string, sep: char)
    ensures Split([c] + t, sep) == ConsPart(c, sep, Split(t, sep))
  {
    assert ([c] + t)[1..] == t;
  }

  /** Prefixing a character commutes with appending parts. */
  lemma ConsPartAppend(c: char, sep: char, ra: seq<string>, sb: seq<string>)
    requires |ra| >= 1
    ensures ConsPart(c, sep, ra + sb) == ConsPart(c, sep, ra) + sb
  {
    assert (ra + sb)[0] == ra[0];
    assert (ra + sb)[1..] == ra[1..] + sb;
  }

  /** The inductive step of SplitConcat: one more leading character. */
  lemma SplitConcatStep(c: char, t: string, b: string, sep: char)
    requires Split(t + [sep] + b, sep) == Split(t, sep) + Split(b, sep)
    ensures Split([c] + t + [sep] + b, sep) == Split([c] + t, sep) + Split(b, sep)
  {
    var u := t + [sep] + b;
    assert [c] + t + [sep] + b == [c] + u;
    SplitCons(c, u, sep);
    SplitCons(c, t, sep);
    ConsPartAppend(c, sep, Split(t, sep), Split(b, sep));
  }

  /** A separator between two strings joins their split parts. */
  lemma {:induction false} SplitConcat(a: string, b: string, sep: char)
    ensures Split(a + [sep] + b, sep) == Split(a, sep) + Split(b, sep)
    decreases |a|
  {
    if a == [] {
      assert a + [sep] + b == [sep] + b;
      SplitCons(sep, b, sep);
    } else {
      SplitConcat(a[1..], b, sep);
      SplitConcatStep(a[0], a[1..], b, sep);
      assert a == [a[0]] + a[1..];
    }
  }

  // ---------------------------------------------------------------------
  // Paths (forward-slash separator, as on Linux)

  /** filepath.Ext: the suffix from the final '.' of the final path element,
      or "" when that element has no '.'. */
  function Ext(path: string): (r: string)
    ensures r == [] || (r[0] == '.' && '/' !in r && HasSuffix(path, r))
    ensures r != [] ==> '.' !in r[1..]
    decreases |path|
  {
    if path == [] || path[|path| - 1] == '/' then []
    else if path[|path| - 1] == '.' then ['.']
    else
      var e := Ext(path[..|path| - 1]);
      if e == [] then [] else e + [path[|path| - 1]]
  }

  /** filepath.Dir without the Clean step: everything before the last '/',
      "/" for a root-level name and "." when there is no '/'. */
  function Dir(path: string): (r: string)
    decreases |path|
  {
    if path == [] then "."
    else if path[|path| - 1] == '/' then (if |path| == 1 then "/" else path[..|path| - 1])
    else Dir(path[..|path| - 1])
  }

  /** filepath.Join of non-empty elements, without the Clean step. */
  function JoinPath(elems: seq<string>): string {
    if elems == [] then []
    else
      var rest := JoinPath(elems[1..]);
      if elems[0] == [] then rest
      else if rest == [] then elems[0]
      else elems[0] + "/" + rest
  }

  /** filepath.Join of one element. */
  lemma JoinPathOne(x: string)
    ensures JoinPath([x]) == x
  {
    assert [x][1..] == [];
  }

  /** filepath.Join with a non-empty first element. */
  lemma JoinPathCons(x: string, rest: seq<string>)
    requires x != "" && JoinPath(rest) != ""
    ensures JoinPath([x] + rest) == x + "/" + JoinPath(rest)
  {
    assert ([x] + rest)[1..] == rest;
  }

  /** filepath.Join with a final non-empty element. */
  lemma {:induction false} JoinPathLast(elems: seq<string>, x: string)
    requires x != ""
    ensures JoinPath(elems + [x]) == if JoinPath(elems) == "" then x else JoinPath(elems) + "/" + x
    decreases |elems|
  {
    if elems == [] {
      assert elems + [x] == [x];
      assert JoinPath([x]) == x by {
        assert [x][1..] == [];
      }
    } else {
      assert (elems + [x])[0] == elems[0];
      assert (elems + [x])[1..] == elems[1..] + [x];
      JoinPathLast(elems[1..], x);
    }
  }

  // ---------------------------------------------------------------------
  // Decimal integers

  function DigitChar(d: nat): char
    requires d < 10
  {
    ('0' as int + d) as char
  }

  predicate IsDigit(c: char) {
    '0' <= c <= '9'
  }

  function DigitValue(c: char): nat
    requires IsDigit(c)
  {
    c as int - '0' as int
  }

  /** fmt "%d" of a natural number. */
  function NatToString(n: nat): (r: string)
    ensures |r| >= 1
    ensures forall k :: 0 <= k < |r| ==> IsDigit(r[k])
    decreases n
  {
    if n < 10 then [DigitChar(n)] else NatToString(n / 10) + [DigitChar(n % 10)]
  }

  /** fmt "%d" of an integer. */
  function IntToString(i: int): (r: string)
    ensures |r| >= 1
    ensures ',' !in r
  {
    if i < 0 then "-" + NatToString(-i) else NatToString(i)
  }

  predicate AllDigits(s: string) {
    forall k :: 0 <= k < |s| ==> IsDigit(s[k])
  }

  function DigitsValue(s: string): nat
    requires AllDigits(s)
    decreases |s|
  {
    if s == [] then 0 else DigitsValue(s[..|s| - 1]) * 10 + DigitValue(s[|s| - 1])
  }

  lemma {:induction false} DigitsValueOfNat(n: nat)
    ensures DigitsValue(NatToString(n)) == n
    decreases n
  {
    var r := NatToString(n);
    if n >= 10 {
      DigitsValueOfNat(n / 10);
      assert r[..|r| - 1] == NatToString(n / 10);
    }
  }

  const Int64Min: int := -0x8000_0000_0000_0000
  const Int64Max: int := 0x7FFF_FFFF_FFFF_FFFF

  /** strconv.ParseInt(s, 10, 64): optional sign then at least one decimal
      digit; None on a syntax error or a value outside int64. */
  function ParseInt64(s: string): (r: Option<int>)
    ensures r.Some? ==> Int64Min <= r.value <= Int64Max
    ensures s == [] ==> r.None?
  {
    if s == [] then None
    else
      var neg := s[0] == '-';
      var body := if s[0] == '-' || s[0] == '+' then s[1..] else s;
      if body == [] || !AllDigits(body) then None
      else
        var v: int := if neg then -(DigitsValue(body) as int) else DigitsValue(body);
        if Int64Min <= v <= Int64Max then Some(v) else None
  }

  /** Formatting an int64 with %d and parsing it back gives the same value. */
  lemma ParseFormatInt64(i: int)
    requires Int64Min <= i <= Int64Max
    ensures ParseInt64(IntToString(i)) == Some(i)
  {
    var s := IntToString(i);
    if i < 0 {
      var n := NatToString(-i);
      assert s == "-" + n;
      assert s[0] == '-' && s[1..] == n;
      DigitsValueOfNat(-i);
      assert AllDigits(n) && n != [];
    } else {
      var n := NatToString(i);
      assert s == n;
      assert IsDigit(s[0]);
      DigitsValueOfNat(i);
      assert AllDigits(n) && n != [];
    }
  }
}
