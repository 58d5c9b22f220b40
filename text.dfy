/** The JavaScript string operations the components use, on `string` = `seq<char>`
    (UTF-16 code units are not distinguished from characters). */
module Text {
  import opened Base

  /** What `\s` matches and `String.prototype.trim` removes: the ECMAScript white space
      characters (TAB, VT, FF, SP, NBSP, ZWNBSP and the Zs category) and line terminators. */
  predicate IsSpace(c: char) {
    c == ' ' || c == '\t' || c == '\n' || c == '\r' || c == '\U{000B}' || c == '\U{000C}'
    || c == '\U{00A0}' || c == '\U{1680}' || ('\U{2000}' <= c <= '\U{200A}')
    || c == '\U{2028}' || c == '\U{2029}' || c == '\U{202F}' || c == '\U{205F}'
    || c == '\U{3000}' || c == '\U{FEFF}'
  }

  predicate AllSpace(s: string) {
    forall i :: 0 <= i < |s| ==> IsSpace(s[i])
  }

  predicate NoSpace(s: string) {
    forall i :: 0 <= i < |s| ==> !IsSpace(s[i])
  }

  /** `String.prototype.trimStart`: drops the longest all-space prefix. */
  function TrimStart(s: string): (r: string)
    ensures |r| <= |s| && (|r| == |s| ==> r == s)
    ensures r != [] ==> r[0] == s[|s| - |r|] && r[|r| - 1] == s[|s| - 1]
    ensures forall i :: 0 <= i < |s| - |r| ==> IsSpace(s[i])
    ensures r == [] || !IsSpace(r[0])
  {
    if s != [] && IsSpace(s[0]) then TrimStart(s[1..]) else s
  }

  /** What `trimStart` keeps is the suffix after the dropped spaces. */
  lemma {:induction false} TrimStartSuffix(s: string)
    ensures TrimStart(s) == s[|s| - |TrimStart(s)|..]
  {
    if s != [] && IsSpace(s[0]) {
      TrimStartSuffix(s[1..]);
      assert s[1..][|s| - 1 - |TrimStart(s[1..])|..] == s[|s| - |TrimStart(s)|..];
    }
  }

  /** `String.prototype.trimEnd`: drops the longest all-space suffix. */
  function TrimEnd(s: string): (r: string)
    ensures |r| <= |s| && forall i :: 0 <= i < |r| ==> r[i] == s[i]
    ensures forall i :: |r| <= i < |s| ==> IsSpace(s[i])
    ensures r == [] || !IsSpace(r[|r| - 1])
  {
    if s != [] && IsSpace(s[|s| - 1]) then TrimEnd(s[..|s| - 1]) else s
  }

  /** `r` is the slice of `s` from `k`, with nothing but white space before and after it. */
  ghost predicate TrimmedAt(s: string, r: string, k: int) {
    0 <= k && k + |r| <= |s| && r == s[k..k + |r|] && AllSpace(s[..k]) && AllSpace(s[k + |r|..])
  }

  /** `String.prototype.trim`: removes the white space at the two ends and nothing else, so what it
      keeps is one slice of the input with only white space around it. */
  function Trim(s: string): (r: string)
    ensures |r| <= |s|
    ensures exists k :: TrimmedAt(s, r, k)
    ensures r == [] || (!IsSpace(r[0]) && !IsSpace(r[|r| - 1]))
    ensures r == [] <==> AllSpace(s)
  {
    var e := TrimEnd(s);
    var r := TrimStart(e);
    assert e != [] ==> !IsSpace(e[|e| - 1]) && r != [];
    assert r != [] ==> r[|r| - 1] == s[|e| - 1];
    assert r != [] ==> r[0] == s[|e| - |r|];
    TrimEndStartSlice(s);
    r
  }

  /** Trimming the end and then the start keeps the slice between the two white-space ends. */
  lemma TrimEndStartSlice(s: string)
    ensures TrimmedAt(s, TrimStart(TrimEnd(s)), |TrimEnd(s)| - |TrimStart(TrimEnd(s))|)
  {
    var e := TrimEnd(s);
    var r := TrimStart(e);
    TrimStartSuffix(e);
    var k := |e| - |r|;
    var before, after := s[..k], s[k + |r|..];
    assert e == s[..|e|];
    assert r == s[k..k + |r|] by {
      assert r == e[k..];
      assert e[k..] == s[k..|e|];
    }
    assert AllSpace(before) by {
      assert forall i :: 0 <= i < k ==> before[i] == e[i];
    }
    assert AllSpace(after) by {
      assert forall i :: 0 <= i < |after| ==> after[i] == s[|e| + i];
    }
  }

  /** `String.prototype.toLowerCase` on the ASCII letters: the result is never a capital, a
      capital becomes the small letter at the same place in the alphabet, and every other
      character stays. */
  function LowerChar(c: char): (d: char)
    ensures !('A' <= d <= 'Z')
    ensures 'A' <= c <= 'Z' ==> 'a' <= d <= 'z' && d as int - 'a' as int == c as int - 'A' as int
    ensures !('A' <= c <= 'Z') ==> d == c
  {
    if 'A' <= c <= 'Z' then (c as int + 32) as char else c
  }

  /** Lower-casing leaves no ASCII capital, turns each capital into its small letter, and keeps
      every other character in its place. */
  function ToLower(s: string): (r: string)
    ensures |r| == |s|
    ensures forall i :: 0 <= i < |r| ==> !('A' <= r[i] <= 'Z')
    ensures forall i :: 0 <= i < |s| && 'A' <= s[i] <= 'Z' ==> 'a' <= r[i] <= 'z' && r[i] as int - 'a' as int == s[i] as int - 'A' as int
    ensures forall i :: 0 <= i < |s| && !('A' <= s[i] <= 'Z') ==> r[i] == s[i]
  {
    seq(|s|, i requires 0 <= i < |s| => LowerChar(s[i]))
  }

  /** Lower-casing twice is lower-casing once. */
  lemma ToLowerIdempotent(s: string)
    ensures ToLower(ToLower(s)) == ToLower(s)
  {
    assert forall i :: 0 <= i < |s| ==> LowerChar(LowerChar(s[i])) == LowerChar(s[i]);
  }

  /** Lower-casing keeps white space where it is. */
  lemma ToLowerKeepsSpace(s: string)
    ensures AllSpace(s) <==> AllSpace(ToLower(s))
  {
  }

  predicate StartsWith(s: string, p: string) {
    |p| <= |s| && s[..|p|] == p
  }

  /** `String.prototype.indexOf`: the leftmost position at which `w` occurs. */
  function IndexOf(s: string, w: string): (r: Option<nat>)
    ensures r.Some? ==> r.value + |w| <= |s| && StartsWith(s[r.value..], w)
    ensures forall j :: 0 <= j <= |s| && (r.None? || j < r.value) ==> !StartsWith(s[j..], w)
    decreases |s|
  {
    if StartsWith(s, w) then Some(0)
    else if s == [] then None
    else
      var k := IndexOf(s[1..], w);
      assert forall j :: 1 <= j <= |s| ==> s[j..] == s[1..][j - 1..];
      match k
      case Some(i) => Some(i + 1)
      case None => None
  }

  /** `String.prototype.includes` */
  predicate Includes(s: string, w: string) {
    IndexOf(s, w).Some?
  }

  lemma IncludesAt(s: string, w: string, i: nat)
    requires i + |w| <= |s| && s[i..i + |w|] == w
    ensures Includes(s, w)
  {
    assert StartsWith(s[i..], w);
  }

  /** `w` is found at `k` when it occurs there and nowhere before. */
  lemma IndexOfAt(s: string, w: string, k: nat)
    requires k <= |s| && StartsWith(s[k..], w)
    requires forall j :: 0 <= j < k ==> !StartsWith(s[j..], w)
    ensures IndexOf(s, w) == Some(k)
  {
  }

  /** A pattern holding a character that `s` lacks is not found. */
  lemma IndexOfMissingChar(s: string, w: string, i: nat)
    requires i < |w| && w[i] !in s
    ensures IndexOf(s, w).None?
  {
  }

  /** `s[j..]` does not start with `w` where one character differs. */
  lemma NotStartsWithAt(s: string, w: string, j: nat, i: nat)
    requires i < |w| && j + i < |s| && s[j + i] != w[i]
    ensures !StartsWith(s[j..], w)
  {
    if |w| <= |s[j..]| {
      assert s[j..][..|w|][i] == s[j + i];
    }
  }

  /** `String.prototype.replace` with a string pattern: only the first occurrence is replaced. */
  function ReplaceFirst(s: string, pat: string, rep: string): (r: string)
    ensures (forall j :: 0 <= j <= |s| ==> !StartsWith(s[j..], pat)) ==> r == s
    ensures forall k :: (0 <= k <= |s| && StartsWith(s[k..], pat) && (forall j :: 0 <= j < k ==> !StartsWith(s[j..], pat))
                         ==> r == s[..k] + rep + s[k + |pat|..])
  {
    match IndexOf(s, pat)
    case None => s
    case Some(i) => s[..i] + rep + s[i + |pat|..]
  }

  /** `String.prototype.split` with a one-character separator. */
  function Split(s: string, c: char): (parts: seq<string>)
    ensures |parts| >= 1
    decreases |s|
  {
    if s == [] then [""]
    else
      var rest := Split(s[1..], c);
      if s[0] == c then [""] + rest else [[s[0]] + rest[0]] + rest[1..]
  }

  /** No piece of a split holds the separator. */
  lemma {:induction false} SplitPieces(s: string, c: char)
    ensures forall k :: 0 <= k < |Split(s, c)| ==> c !in Split(s, c)[k]
    decreases |s|
  {
    if s != [] {
      SplitPieces(s[1..], c);
    }
  }

  /** `Array.prototype.join` with a one-character separator. */
  function Join(parts: seq<string>, c: char): string
  {
    if parts == [] then ""
    else if |parts| == 1 then parts[0]
    else parts[0] + [c] + Join(parts[1..], c)
  }

  lemma {:induction false} JoinSplit(s: string, c: char)
    ensures Join(Split(s, c), c) == s
    decreases |s|
  {
    if s != [] {
      JoinSplit(s[1..], c);
      var rest := Split(s[1..], c);
      if s[0] == c {
        assert s == [c] + s[1..];
      } else if |rest| == 1 {
        assert s == [s[0]] + s[1..];
      } else {
        assert rest == [rest[0]] + rest[1..];
        assert Join(rest, c) == rest[0] + [c] + Join(rest[1..], c);
        var p := [[s[0]] + rest[0]] + rest[1..];
        assert p[1..] == rest[1..];
        assert s == [s[0]] + s[1..];
      }
    }
  }

  lemma {:induction false} SplitNoSeparator(s: string, c: char)
    requires c !in s
    ensures Split(s, c) == [s]
    decreases |s|
  {
    if s != [] {
      SplitNoSeparator(s[1..], c);
      assert s == [s[0]] + s[1..];
    }
  }

  /** Splitting at one occurrence of the separator splits the two sides independently. */
  lemma {:induction false} SplitConcat(a: string, b: string, c: char)
    ensures Split(a + [c] + b, c) == Split(a, c) + Split(b, c)
    decreases |a|
  {
    if a == [] {
      assert (a + [c] + b)[1..] == b;
    } else {
      var t := a[1..] + [c] + b;
      assert (a + [c] + b)[0] == a[0] && (a + [c] + b)[1..] == t;
      SplitConcat(a[1..], b, c);
      if a[0] == c {
        SplitConcatAtSeparator(a, b, c);
      } else {
        var ra, rb := Split(a[1..], c), Split(b, c);
        assert Split(a, c) == [[a[0]] + ra[0]] + ra[1..];
        assert Split(a + [c] + b, c) == [[a[0]] + (ra + rb)[0]] + (ra + rb)[1..];
        ConsHeadAppend(a[0], ra, rb);
      }
    }
  }

  /** The step of `SplitConcat` when `a` starts with the separator. */
  lemma SplitConcatAtSeparator(a: string, b: string, c: char)
    requires a != [] && a[0] == c
    requires Split(a + [c] + b, c) == [""] + Split(a[1..] + [c] + b, c)
    requires Split(a[1..] + [c] + b, c) == Split(a[1..], c) + Split(b, c)
    ensures Split(a + [c] + b, c) == Split(a, c) + Split(b, c)
  {
    var ra, rb := Split(a[1..], c), Split(b, c);
    assert [""] + (ra + rb) == ([""] + ra) + rb;
  }

  /** The step of `SplitConcat` when `a` starts with another character: extending the first part
      of `ra + rb` by `x` extends the first part of `ra`. */
  lemma ConsHeadAppend(x: char, ra: seq<string>, rb: seq<string>)
    requires |ra| >= 1
    ensures [[x] + (ra + rb)[0]] + (ra + rb)[1..] == ([[x] + ra[0]] + ra[1..]) + rb
  {
    assert (ra + rb)[1..] == ra[1..] + rb;
  }

  lemma {:induction false} SplitJoin(parts: seq<string>, c: char)
    requires |parts| >= 1
    requires forall k :: 0 <= k < |parts| ==> c !in parts[k]
    ensures Split(Join(parts, c), c) == parts
    decreases |parts|
  {
    if |parts| == 1 {
      SplitNoSeparator(parts[0], c);
    } else {
      SplitJoin(parts[1..], c);
      SplitConcat(parts[0], Join(parts[1..], c), c);
      SplitNoSeparator(parts[0], c);
      assert parts == [parts[0]] + parts[1..];
    }
  }

  /** `s.split(c).pop()` */
  function LastSegment(s: string, c: char): string
  {
    Last(Split(s, c))
  }

  /** Splits `s` at the last occurrence of `c`. */
  lemma {:induction false} LastSeparator(s: string, c: char) returns (a: string, b: string)
    requires c in s
    ensures s == a + [c] + b && c !in b
    decreases |s|
  {
    var p := s[..|s| - 1];
    assert s == p + [s[|s| - 1]];
    if s[|s| - 1] == c {
      a, b := p, [];
    } else {
      var b';
      a, b' := LastSeparator(p, c);
      b := b' + [s[|s| - 1]];
    }
  }

  /** The last segment is the longest separator-free suffix of `s`. */
  lemma LastSegmentIsSuffix(s: string, c: char)
    ensures c !in LastSegment(s, c)
    ensures |LastSegment(s, c)| <= |s| && s[|s| - |LastSegment(s, c)|..] == LastSegment(s, c)
    ensures |LastSegment(s, c)| < |s| ==> s[|s| - |LastSegment(s, c)| - 1] == c
  {
    if c !in s {
      SplitNoSeparator(s, c);
    } else {
      var a, b := LastSeparator(s, c);
      LastSegmentAfter(a, b, c);
      assert s[|s| - |b|..] == b;
    }
  }

  lemma LastSegmentAfter(a: string, b: string, c: char)
    requires c !in b
    ensures LastSegment(a + [c] + b, c) == b
  {
    SplitConcat(a, b, c);
    SplitNoSeparator(b, c);
  }

  lemma FirstSegmentBefore(a: string, b: string, c: char)
    requires c !in a
    ensures Split(a + [c] + b, c)[0] == a
  {
    SplitConcat(a, b, c);
    SplitNoSeparator(a, c);
  }

  /** `s.split(/\s+/)`: the pieces between maximal runs of white space. */
  function SplitSpaces(s: string): (parts: seq<string>)
    ensures |parts| >= 1
    ensures forall k :: 0 <= k < |parts| ==> NoSpace(parts[k])
    decreases |s|
  {
    if s == [] then [""]
    else if IsSpace(s[0]) then
      var t := TrimStart(s);
      [""] + SplitSpaces(t)
    else
      var rest := SplitSpaces(s[1..]);
      [[s[0]] + rest[0]] + rest[1..]
  }

  /** `parts[0] + seps[0] + parts[1] + ... + parts[n]`: the pieces glued back with the runs between them. */
  function Interleave(parts: seq<string>, seps: seq<string>): string
    requires |seps| + 1 == |parts|
    decreases |seps|
  {
    if seps == [] then parts[0] else parts[0] + seps[0] + Interleave(parts[1..], seps[1..])
  }

  /** Every run is non-empty white space. */
  ghost predicate SpaceRuns(seps: seq<string>) {
    forall k :: 0 <= k < |seps| ==> seps[k] != [] && AllSpace(seps[k])
  }

  /** Only the first and the last piece may be empty. */
  ghost predicate InnerPiecesNonEmpty(parts: seq<string>) {
    forall k :: 0 < k < |parts| - 1 ==> parts[k] != []
  }

  /** `s` is the pieces joined by the runs `seps`: every run is non-empty white space, no piece
      holds white space, and only the first and the last piece may be empty. So the pieces are the
      maximal runs of `s` without white space, and the runs the maximal ones of white space. */
  ghost predicate IsSpaceSplit(parts: seq<string>, seps: seq<string>, s: string) {
    |seps| + 1 == |parts|
    && (forall k :: 0 <= k < |parts| ==> NoSpace(parts[k]))
    && InnerPiecesNonEmpty(parts)
    && SpaceRuns(seps)
    && Interleave(parts, seps) == s
  }

  /** Prepending a character to the first piece prepends it to the whole. */
  lemma InterleaveConsHead(c: char, parts: seq<string>, seps: seq<string>)
    requires |seps| + 1 == |parts|
    ensures Interleave([[c] + parts[0]] + parts[1..], seps) == [c] + Interleave(parts, seps)
  {
    var q := [[c] + parts[0]] + parts[1..];
    assert q[1..] == parts[1..];
  }

  /** An empty first piece followed by a run puts the run in front. */
  lemma InterleaveConsRun(run: string, parts: seq<string>, seps: seq<string>)
    requires |seps| + 1 == |parts|
    ensures Interleave([""] + parts, [run] + seps) == run + Interleave(parts, seps)
  {
    var q, r := [""] + parts, [run] + seps;
    assert q[1..] == parts && r[1..] == seps;
    assert Interleave(q, r) == q[0] + r[0] + Interleave(parts, seps);
  }

  lemma SpaceRunsCons(run: string, seps: seq<string>)
    requires run != [] && AllSpace(run) && SpaceRuns(seps)
    ensures SpaceRuns([run] + seps)
  {
    assert forall k :: 1 <= k < |seps| + 1 ==> ([run] + seps)[k] == seps[k - 1];
  }

  /** The pieces of `split(/\s+/)` glued back with the white-space runs between them give the string. */
  lemma {:induction false} SplitSpacesGlue(s: string) returns (seps: seq<string>)
    ensures |seps| + 1 == |SplitSpaces(s)| && SpaceRuns(seps)
    ensures Interleave(SplitSpaces(s), seps) == s
    decreases |s|
  {
    if s == [] {
      seps := [];
    } else if IsSpace(s[0]) {
      var t := TrimStart(s);
      var st := SplitSpacesGlue(t);
      TrimStartSuffix(s);
      var run := s[..|s| - |t|];
      assert s == run + t;
      assert SplitSpaces(s) == [""] + SplitSpaces(t);
      InterleaveConsRun(run, SplitSpaces(t), st);
      SpaceRunsCons(run, st);
      seps := [run] + st;
    } else {
      var rest := SplitSpaces(s[1..]);
      seps := SplitSpacesGlue(s[1..]);
      assert SplitSpaces(s) == [[s[0]] + rest[0]] + rest[1..];
      InterleaveConsHead(s[0], rest, seps);
      assert s == [s[0]] + s[1..];
    }
  }

  /** No inner piece of `split(/\s+/)` is empty, nor the first when the string starts with a
      character that is not white space. */
  lemma {:induction false} SplitSpacesInner(s: string)
    ensures InnerPiecesNonEmpty(SplitSpaces(s))
    ensures s != [] && !IsSpace(s[0]) ==> SplitSpaces(s)[0] != []
    decreases |s|
  {
    if s != [] {
      if IsSpace(s[0]) {
        var t := TrimStart(s);
        SplitSpacesInner(t);
        var p := SplitSpaces(t);
        assert SplitSpaces(s) == [""] + p;
        assert |p| > 1 ==> t != [];
        assert forall k :: 1 <= k < |p| + 1 ==> ([""] + p)[k] == p[k - 1];
      } else {
        var rest := SplitSpaces(s[1..]);
        SplitSpacesInner(s[1..]);
        assert SplitSpaces(s) == [[s[0]] + rest[0]] + rest[1..];
      }
    }
  }

  /** `split(/\s+/)` cuts the string exactly at its maximal runs of white space. */
  lemma SplitSpacesRuns(s: string)
    ensures exists seps :: IsSpaceSplit(SplitSpaces(s), seps, s)
  {
    var seps := SplitSpacesGlue(s);
    SplitSpacesInner(s);
    assert IsSpaceSplit(SplitSpaces(s), seps, s);
  }

  /** One unfolding of a split with at least one run: the first piece, the first run, and a split
      of the rest that starts with no white space. */
  lemma SpaceSplitTail(p: seq<string>, q: seq<string>, s: string)
    requires IsSpaceSplit(p, q, s) && |q| > 0
    ensures s == p[0] + q[0] + Interleave(p[1..], q[1..])
    ensures IsSpaceSplit(p[1..], q[1..], Interleave(p[1..], q[1..]))
    ensures Interleave(p[1..], q[1..]) == [] || !IsSpace(Interleave(p[1..], q[1..])[0])
  {
    var p', q' := p[1..], q[1..];
    var rest := Interleave(p', q');
    assert forall k :: 0 <= k < |p'| ==> p'[k] == p[k + 1];
    assert forall k :: 0 <= k < |q'| ==> q'[k] == q[k + 1];
    assert InnerPiecesNonEmpty(p');
    assert SpaceRuns(q');
    if p'[0] == [] {
      assert |q'| == 0;
    } else {
      assert q' == [] ==> rest == p'[0];
      assert q' != [] ==> rest == p'[0] + (q'[0] + Interleave(p'[1..], q'[1..]));
      assert rest[0] == p'[0][0];
    }
  }

  /** Two ways of writing one string as a piece without white space and then white space agree
      on the piece. */
  lemma PieceCut(a1: string, x1: string, a2: string, x2: string)
    requires NoSpace(a1) && NoSpace(a2) && x1 != [] && IsSpace(x1[0]) && x2 != [] && IsSpace(x2[0])
    requires a1 + x1 == a2 + x2
    ensures a1 == a2 && x1 == x2
  {
    FirstSpaceAt(a1, x1);
    FirstSpaceAt(a2, x2);
    assert |a1| == |a2|;
    assert a1 == (a1 + x1)[..|a1|] && a2 == (a2 + x2)[..|a2|];
  }

  /** In a piece without white space followed by white space, the first white space is where the
      piece ends. */
  lemma FirstSpaceAt(a: string, x: string)
    requires NoSpace(a) && x != [] && IsSpace(x[0])
    ensures forall i :: 0 <= i < |a| ==> !IsSpace((a + x)[i])
    ensures IsSpace((a + x)[|a|])
  {
  }

  /** Two ways of writing one string as a run of white space and then a rest that starts with no
      white space agree on the run. */
  lemma RunCut(q1: string, r1: string, q2: string, r2: string)
    requires q1 != [] && AllSpace(q1) && q2 != [] && AllSpace(q2)
    requires r1 == [] || !IsSpace(r1[0])
    requires r2 == [] || !IsSpace(r2[0])
    requires q1 + r1 == q2 + r2
    ensures q1 == q2 && r1 == r2
  {
    RunEndsAt(q1, r1);
    RunEndsAt(q2, r2);
    assert |q1| == |q2|;
    assert q1 == (q1 + r1)[..|q1|] && q2 == (q2 + r2)[..|q2|];
    assert r1 == (q1 + r1)[|q1|..] && r2 == (q2 + r2)[|q2|..];
  }

  /** A run of white space followed by a rest that starts with no white space ends where the run does. */
  lemma RunEndsAt(q: string, r: string)
    requires AllSpace(q) && (r == [] || !IsSpace(r[0]))
    ensures forall i :: 0 <= i < |q| ==> IsSpace((q + r)[i])
    ensures |q| < |q + r| ==> !IsSpace((q + r)[|q|])
  {
  }

  /** A string with no run of white space is its own single piece. */
  lemma SpaceSplitSingle(p: seq<string>, q: seq<string>, s: string)
    requires IsSpaceSplit(p, q, s)
    ensures q == [] <==> NoSpace(s)
    ensures q == [] ==> p == [s]
  {
    if q == [] {
      assert s == p[0];
    } else {
      SpaceSplitTail(p, q, s);
      var i := |p[0]|;
      assert s[i] == q[0][0];
    }
  }

  /** The pieces and runs of a string are unique: they are its maximal runs without and with
      white space. */
  lemma {:induction false} SpaceSplitUnique(p1: seq<string>, q1: seq<string>, p2: seq<string>, q2: seq<string>, s: string)
    requires IsSpaceSplit(p1, q1, s) && IsSpaceSplit(p2, q2, s)
    ensures p1 == p2 && q1 == q2
    decreases |q1|
  {
    SpaceSplitSingle(p1, q1, s);
    SpaceSplitSingle(p2, q2, s);
    if q1 != [] {
      SpaceSplitTail(p1, q1, s);
      SpaceSplitTail(p2, q2, s);
      var r1, r2 := Interleave(p1[1..], q1[1..]), Interleave(p2[1..], q2[1..]);
      assert s == p1[0] + (q1[0] + r1) && s == p2[0] + (q2[0] + r2);
      PieceCut(p1[0], q1[0] + r1, p2[0], q2[0] + r2);
      RunCut(q1[0], r1, q2[0], r2);
      SpaceSplitUnique(p1[1..], q1[1..], p2[1..], q2[1..], r1);
      assert p1 == [p1[0]] + p1[1..] && p2 == [p2[0]] + p2[1..];
      assert q1 == [q1[0]] + q1[1..] && q2 == [q2[0]] + q2[1..];
    }
  }

  /** A string with no white space at either end splits into non-empty words, unless it is empty. */
  lemma {:induction false} SplitTrimmedWords(s: string)
    requires s == [] || (!IsSpace(s[0]) && !IsSpace(s[|s| - 1]))
    ensures s == [] ==> SplitSpaces(s) == [""]
    ensures s != [] ==> forall k :: 0 <= k < |SplitSpaces(s)| ==> SplitSpaces(s)[k] != ""
    decreases |s|
  {
    if s != [] {
      var rest := SplitSpaces(s[1..]);
      if s[1..] == [] {
      } else if IsSpace(s[1]) {
        var t := TrimStart(s[1..]);
        assert s[1..][|s[1..]| - 1] == s[|s| - 1];
        assert s[1..][..|s[1..]|] == s[1..];
        assert t[|t| - 1] == s[|s| - 1];
        SplitTrimmedWords(t);
        assert rest == [""] + SplitSpaces(t);
      } else {
        SplitTrimmedWords(s[1..]);
      }
    }
  }

  /** `s.trim().split(/\s+/)`: a blank string gives the one empty word, any other string only
      non-empty words, and no word holds white space. */
  lemma TrimmedWords(s: string)
    ensures |SplitSpaces(Trim(s))| >= 1
    ensures forall k :: 0 <= k < |SplitSpaces(Trim(s))| ==> NoSpace(SplitSpaces(Trim(s))[k])
    ensures AllSpace(s) ==> SplitSpaces(Trim(s)) == [""]
    ensures !AllSpace(s) ==> forall k :: 0 <= k < |SplitSpaces(Trim(s))| ==> SplitSpaces(Trim(s))[k] != ""
  {
    SplitTrimmedWords(Trim(s));
  }

  /** `s.split(from).join(to)` */
  function ReplaceAll(s: string, from: char, to: char): string
  {
    Join(Split(s, from), to)
  }

  /** Splitting at a character and joining with another replaces every occurrence, one by one. */
  lemma {:induction false} ReplaceAllChars(s: string, from: char, to: char)
    ensures |ReplaceAll(s, from, to)| == |s|
    ensures forall i :: 0 <= i < |s| ==> ReplaceAll(s, from, to)[i] == if s[i] == from then to else s[i]
    decreases |s|
  {
    if s != [] {
      ReplaceAllChars(s[1..], from, to);
      if s[0] == from {
        ReplaceAllAtSeparator(s, from, to);
      } else {
        ReplaceAllAtChar(s, from, to);
      }
      assert forall i :: 1 <= i < |s| ==> s[i] == s[1..][i - 1];
    }
  }

  /** `ReplaceAll` on a string that starts with the character replaced. */
  lemma ReplaceAllAtSeparator(s: string, from: char, to: char)
    requires s != [] && s[0] == from
    ensures ReplaceAll(s, from, to) == [to] + ReplaceAll(s[1..], from, to)
  {
    var rest := Split(s[1..], from);
    assert Split(s, from) == [""] + rest;
    assert ([""] + rest)[1..] == rest;
  }

  /** `ReplaceAll` on a string that starts with another character. */
  lemma ReplaceAllAtChar(s: string, from: char, to: char)
    requires s != [] && s[0] != from
    ensures ReplaceAll(s, from, to) == [s[0]] + ReplaceAll(s[1..], from, to)
  {
    var rest := Split(s[1..], from);
    var p := [[s[0]] + rest[0]] + rest[1..];
    assert Split(s, from) == p;
    if |rest| > 1 {
      assert p[1..] == rest[1..];
      assert Join(rest, to) == rest[0] + [to] + Join(rest[1..], to);
    }
  }
}
