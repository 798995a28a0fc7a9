/**
 Splitting, joining and replacing in strings: the index loops of the utility library against
 recursive definitions.
 */
module Strings {

  datatype Position = Npos | Pos(index: nat)

  /** The pattern agrees with the text at the index, from its k-th character on. */
  predicate Agrees(s: string, d: string, i: nat, k: nat)
    requires i + |d| <= |s| && k <= |d|
    decreases |d| - k
  {
    k == |d| || (s[i + k] == d[k] && Agrees(s, d, i, k + 1))
  }

  /** The pattern occurs at the index. */
  predicate At(s: string, d: string, i: nat) {
    i + |d| <= |s| && Agrees(s, d, i, 0)
  }

  lemma {:induction false} AgreesMeans(s: string, d: string, i: nat, k: nat)
    requires i + |d| <= |s| && k <= |d|
    ensures Agrees(s, d, i, k) <==> s[i + k..i + |d|] == d[k..]
    decreases |d| - k
  {
    if k < |d| {
      AgreesMeans(s, d, i, k + 1);
      assert s[i + k..i + |d|] == [s[i + k]] + s[i + k + 1..i + |d|] && d[k..] == [d[k]] + d[k + 1..];
    }
  }

  lemma AtMeans(s: string, d: string, i: nat)
    ensures At(s, d, i) <==> i + |d| <= |s| && s[i..i + |d|] == d
  {
    if i + |d| <= |s| { AgreesMeans(s, d, i, 0); }
  }

  /** The first occurrence at or after the index. */
  function Find(s: string, d: string, from: nat): (r: Position)
    ensures r.Pos? ==> from <= r.index && r.index + |d| <= |s|
    decreases |s| - from
  {
    if from + |d| > |s| then Npos else if At(s, d, from) then Pos(from) else Find(s, d, from + 1)
  }

  lemma {:induction false} FindIsFirst(s: string, d: string, from: nat)
    ensures Find(s, d, from).Pos? ==> At(s, d, Find(s, d, from).index)
    ensures forall j: nat :: from <= j && (Find(s, d, from).Pos? ==> j < Find(s, d, from).index) ==> !At(s, d, j)
    decreases |s| - from
  {
    if from + |d| <= |s| && !At(s, d, from) { FindIsFirst(s, d, from + 1); }
  }

  /** The text between the occurrences of the delimiter, found from left to right. */
  function Pieces(s: string, d: string): (r: seq<string>)
    requires d != ""
    ensures r != []
    decreases |s|
  {
    match Find(s, d, 0)
    case Npos => [s]
    case Pos(i) => [s[..i]] + Pieces(s[i + |d|..], d)
  }

  function Joined(parts: seq<string>, d: string): string {
    if parts == [] then "" else if |parts| == 1 then parts[0] else parts[0] + d + Joined(parts[1..], d)
  }

  // ---------- round trips ----------

  lemma {:induction false} JoinedPieces(s: string, d: string)
    requires d != ""
    ensures Joined(Pieces(s, d), d) == s
    decreases |s|
  {
    match Find(s, d, 0)
    case Npos =>
    case Pos(i) =>
      FindIsFirst(s, d, 0);
      JoinedPieces(s[i + |d|..], d);
      assert Pieces(s, d)[1..] == Pieces(s[i + |d|..], d);
      AtMeans(s, d, i);
      assert s == s[..i] + d + s[i + |d|..];
  }

  /** No delimiter occurs in the piece, nor across its end into the delimiter after it. */
  ghost predicate Ends(p: string, d: string) {
    forall j: nat :: j < |p| ==> !At(p + d, d, j)
  }

  ghost predicate Free(p: string, d: string) {
    forall j: nat :: !At(p, d, j)
  }

  ghost predicate Separable(parts: seq<string>, d: string) {
    && parts != []
    && (forall i :: 0 <= i < |parts| - 1 ==> Ends(parts[i], d))
    && Free(parts[|parts| - 1], d)
  }

  lemma AtPrefix(a: string, b: string, d: string, j: nat)
    requires j + |d| <= |a|
    ensures At(a + b, d, j) <==> At(a, d, j)
  {
    AtMeans(a + b, d, j);
    AtMeans(a, d, j);
    assert (a + b)[j..j + |d|] == a[j..j + |d|];
  }

  lemma AtSuffix(a: string, b: string, d: string, j: nat)
    ensures At(a + b, d, |a| + j) <==> At(b, d, j)
  {
    AtMeans(a + b, d, |a| + j);
    AtMeans(b, d, j);
    if j + |d| <= |b| { assert (a + b)[|a| + j..|a| + j + |d|] == b[j..j + |d|]; }
  }

  function Shift(r: Position, n: nat): Position {
    match r case Npos => Npos case Pos(i) => Pos(n + i)
  }

  /** Finding looks at nothing before its starting index. */
  lemma {:induction false} FindAfter(a: string, b: string, d: string, j: nat)
    ensures Find(a + b, d, |a| + j) == Shift(Find(b, d, j), |a|)
    decreases |b| - j
  {
    if j + |d| <= |b| {
      AtSuffix(a, b, d, j);
      if !At(b, d, j) { FindAfter(a, b, d, j + 1); }
    }
  }

  lemma FindFirst(p: string, d: string, rest: string)
    requires d != ""
    ensures Find(p + d + rest, d, 0) == Pos(|p|) <==> Ends(p, d)
  {
    forall j: nat | j <= |p| ensures At(p + d + rest, d, j) <==> At(p + d, d, j) { AtPrefix(p + d, rest, d, j); }
    AtMeans(p + d, d, |p|);
    assert At(p + d, d, |p|);
    FindIsFirst(p + d + rest, d, 0);
  }

  lemma FirstPiece(p: string, d: string, rest: string)
    requires d != "" && Ends(p, d)
    ensures Pieces(p + d + rest, d) == [p] + Pieces(rest, d)
  {
    FindFirst(p, d, rest);
    assert (p + d + rest)[..|p|] == p && (p + d + rest)[|p| + |d|..] == rest;
  }

  lemma {:induction false} PiecesOfJoined(parts: seq<string>, d: string)
    requires d != "" && Separable(parts, d)
    ensures Pieces(Joined(parts, d), d) == parts
  {
    if |parts| == 1 {
      FindIsFirst(parts[0], d, 0);
    } else {
      assert forall i :: 0 <= i < |parts[1..]| - 1 ==> parts[1..][i] == parts[i + 1];
      PiecesOfJoined(parts[1..], d);
      FirstPiece(parts[0], d, Joined(parts[1..], d));
    }
  }

  lemma {:induction false} PiecesSeparable(s: string, d: string)
    requires d != ""
    ensures Separable(Pieces(s, d), d)
    decreases |s|
  {
    match Find(s, d, 0)
    case Npos => FindIsFirst(s, d, 0);
    case Pos(i) =>
      FindIsFirst(s, d, 0);
      PiecesSeparable(s[i + |d|..], d);
      var tail := Pieces(s[i + |d|..], d);
      AtMeans(s, d, i);
      assert s == s[..i] + d + s[i + |d|..];
      FindFirst(s[..i], d, s[i + |d|..]);
      forall k | 0 <= k < |tail| ensures Ends(([s[..i]] + tail)[k], d)
      {
        if k > 0 { assert ([s[..i]] + tail)[k] == tail[k - 1]; }
      }
  }

  /** Splitting undoes joining exactly for parts in which the delimiter starts nowhere too early. */
  lemma SplitUndoesJoinExact(parts: seq<string>, d: string)
    requires d != ""
    ensures Pieces(Joined(parts, d), d) == parts <==> Separable(parts, d)
  {
    PiecesSeparable(Joined(parts, d), d);
    if Separable(parts, d) { PiecesOfJoined(parts, d); }
  }

  // ---------- the loops ----------

  lemma PiecesEnd(s: string, d: string, start: nat)
    requires d != "" && start <= |s| && Find(s, d, start).Npos?
    ensures Pieces(s[start..], d) == [s[start..]]
  {
    assert s == s[..start] + s[start..];
    FindAfter(s[..start], s[start..], d, 0);
  }

  lemma CutTail(s: string, start: nat, i: nat, n: nat)
    requires start + i + n <= |s|
    ensures s[start..][..i] == s[start..start + i] && s[start..][i + n..] == s[start + i + n..]
  {
  }

  lemma PiecesAfter(a: string, rest: string, d: string, i: nat)
    requires d != "" && Find(a + rest, d, |a|) == Pos(|a| + i)
    ensures i + |d| <= |rest| && Pieces(rest, d) == [rest[..i]] + Pieces(rest[i + |d|..], d)
  {
    FindAfter(a, rest, d, 0);
    assert Find(rest, d, 0) == Pos(i);
  }

  lemma PiecesNext(s: string, d: string, start: nat, i: nat)
    requires d != "" && start <= |s| && Find(s, d, start) == Pos(start + i)
    ensures Pieces(s[start..], d) == [s[start..start + i]] + Pieces(s[start + i + |d|..], d)
  {
    assert s == s[..start] + s[start..];
    PiecesAfter(s[..start], s[start..], d, i);
    CutTail(s, start, i, |d|);
  }

  method Split(s: string, d: string) returns (result: seq<string>)
    ensures d == "" ==> result == [s]
    ensures d != "" ==> result == Pieces(s, d)
    ensures Joined(result, d) == s
  {
    if d == "" { return [s]; }
    result := SplitLoop(s, d);
    JoinedPieces(s, d);
  }

  /** Up to `start` the pieces are found; what follows is still to be split. */
  ghost predicate SplitSoFar(all: seq<string>, s: string, d: string, found: seq<string>, start: nat)
    requires d != ""
  {
    start <= |s| && all == found + Pieces(s[start..], d)
  }

  lemma SplitNext(all: seq<string>, s: string, d: string, found: seq<string>, start: nat, end: nat)
    requires d != "" && SplitSoFar(all, s, d, found, start) && Find(s, d, start) == Pos(end)
    ensures SplitSoFar(all, s, d, found + [s[start..end]], end + |d|)
  {
    PiecesNext(s, d, start, end - start);
    var piece, rest := s[start..end], Pieces(s[end + |d|..], d);
    assert found + ([piece] + rest) == (found + [piece]) + rest;
  }

  method SplitLoop(s: string, d: string) returns (result: seq<string>)
    requires d != ""
    ensures result == Pieces(s, d)
  {
    ghost var all := Pieces(s, d);
    result := [];
    var start: nat := 0;
    assert s[start..] == s && result + all == all;
    var end := Find(s, d, start);
    while end.Pos?
      invariant SplitSoFar(all, s, d, result, start) && end == Find(s, d, start)
      decreases |s| - start
    {
      SplitNext(all, s, d, result, start, end.index);
      result := result + [s[start..end.index]];
      start := end.index + |d|;
      end := Find(s, d, start);
    }
    PiecesEnd(s, d, start);
    result := result + [s[start..]];
  }

  lemma {:induction false} JoinedSnoc(parts: seq<string>, p: string, d: string)
    requires parts != []
    ensures Joined(parts + [p], d) == Joined(parts, d) + d + p
  {
    assert (parts + [p])[1..] == parts[1..] + [p];
    if |parts| > 1 { JoinedSnoc(parts[1..], p, d); }
  }

  method Join(parts: seq<string>, d: string) returns (result: string)
    ensures result == Joined(parts, d)
  {
    result := "";
    for i := 0 to |parts|
      invariant result == Joined(parts[..i], d)
    {
      assert parts[..i + 1] == parts[..i] + [parts[i]];
      if i > 0 {
        JoinedSnoc(parts[..i], parts[i], d);
        result := result + d;
      }
      result := result + parts[i];
    }
    assert parts[..|parts|] == parts;
  }

  // ---------- replacing ----------

  /** The string with every occurrence, found from left to right, replaced. */
  function Replaced(s: string, from: string, to: string): string
    requires from != ""
    decreases |s|
  {
    match Find(s, from, 0)
    case Npos => s
    case Pos(i) => s[..i] + to + Replaced(s[i + |from|..], from, to)
  }

  /** Replacing is splitting at the one string and joining with the other. */
  lemma {:induction false} ReplacedIsJoined(s: string, from: string, to: string)
    requires from != ""
    ensures Replaced(s, from, to) == Joined(Pieces(s, from), to)
    decreases |s|
  {
    match Find(s, from, 0)
    case Npos =>
    case Pos(i) =>
      ReplacedIsJoined(s[i + |from|..], from, to);
      assert Pieces(s, from)[1..] == Pieces(s[i + |from|..], from);
  }

  lemma ReplacedEnd(done: string, rest: string, from: string, to: string)
    requires from != "" && Find(done + rest, from, |done|).Npos?
    ensures Replaced(rest, from, to) == rest
  {
    FindAfter(done, rest, from, 0);
  }

  lemma ReplacedNext(done: string, rest: string, from: string, to: string, i: nat)
    requires from != "" && Find(done + rest, from, |done|) == Pos(|done| + i)
    ensures i + |from| <= |rest|
    ensures Replaced(rest, from, to) == rest[..i] + to + Replaced(rest[i + |from|..], from, to)
  {
    FindAfter(done, rest, from, 0);
    assert Find(rest, from, 0) == Pos(i);
  }

  /** The characters from `p` on, `n` of them, overwritten. */
  function Overwrite(result: string, p: nat, n: nat, to: string): string
    requires p + n <= |result|
  {
    result[..p] + to + result[p + n..]
  }

  /** Overwriting behind `pos` keeps what is before it and leaves the tail as it was. */
  lemma OverwriteParts(result: string, pos: nat, p: nat, n: nat, to: string)
    requires pos <= p && p + n <= |result|
    ensures Overwrite(result, p, n, to)[..p + |to|] == result[..pos] + result[pos..][..p - pos] + to
    ensures Overwrite(result, p, n, to)[p + |to|..] == result[pos..][p - pos + n..]
  {
  }

  /** Up to `pos` the result is finished; what follows is still to do. */
  ghost predicate Progress(whole: string, from: string, to: string, result: string, pos: nat)
    requires from != ""
  {
    pos <= |result| && whole == result[..pos] + Replaced(result[pos..], from, to)
  }

  lemma Assoc4(a: string, b: string, c: string, d: string)
    ensures a + (b + c + d) == (a + b + c) + d
  {
  }

  lemma NextOccurrence(result: string, from: string, to: string, pos: nat, p: nat)
    requires from != "" && pos <= |result| && Find(result, from, pos) == Pos(p)
    ensures var rest := result[pos..];
      Replaced(rest, from, to) == rest[..p - pos] + to + Replaced(rest[p - pos + |from|..], from, to)
  {
    assert result == result[..pos] + result[pos..];
    ReplacedNext(result[..pos], result[pos..], from, to, p - pos);
  }

  lemma ProgressBy(whole: string, from: string, to: string, result: string, pos: nat, next: string, q: nat,
      kept: string, tail: string)
    requires from != "" && Progress(whole, from, to, result, pos) && q <= |next|
    requires Replaced(result[pos..], from, to) == kept + to + Replaced(tail, from, to)
    requires next[..q] == result[..pos] + kept + to && next[q..] == tail
    ensures Progress(whole, from, to, next, q)
  {
    Assoc4(result[..pos], kept, to, Replaced(tail, from, to));
  }

  lemma ProgressNext(whole: string, from: string, to: string, result: string, pos: nat, p: nat)
    requires from != "" && Progress(whole, from, to, result, pos) && Find(result, from, pos) == Pos(p)
    ensures Progress(whole, from, to, Overwrite(result, p, |from|, to), p + |to|)
  {
    NextOccurrence(result, from, to, pos, p);
    OverwriteParts(result, pos, p, |from|, to);
    var rest := result[pos..];
    ProgressBy(whole, from, to, result, pos, Overwrite(result, p, |from|, to), p + |to|, rest[..p - pos],
        rest[p - pos + |from|..]);
  }

  lemma ProgressEnd(whole: string, from: string, to: string, result: string, pos: nat)
    requires from != "" && Progress(whole, from, to, result, pos) && Find(result, from, pos).Npos?
    ensures result == whole
  {
    assert result == result[..pos] + result[pos..];
    ReplacedEnd(result[..pos], result[pos..], from, to);
  }

  /** What follows `pos` is a suffix of the input, which no replacement has touched. */
  ghost predicate Untouched(s: string, result: string, pos: nat) {
    pos <= |result| && |result| - pos <= |s| && result[pos..] == s[|s| - (|result| - pos)..]
  }

  lemma UntouchedNext(s: string, result: string, pos: nat, p: nat, n: nat, to: string)
    requires Untouched(s, result, pos) && pos <= p && p + n <= |result|
    ensures Untouched(s, Overwrite(result, p, n, to), p + |to|)
  {
    OverwriteParts(result, pos, p, n, to);
  }

  /** Replacing in place: the part before `pos` is finished and never looked at again, the part
      from `pos` on is an untouched suffix of the input, and shrinks. */
  method ReplaceAll(s: string, from: string, to: string) returns (result: string)
    ensures from == "" ==> result == s
    ensures from != "" ==> result == Joined(Pieces(s, from), to)
  {
    if from == "" { return s; }
    result := ReplaceLoop(s, from, to);
    ReplacedIsJoined(s, from, to);
  }

  method ReplaceLoop(s: string, from: string, to: string) returns (result: string)
    requires from != ""
    ensures result == Replaced(s, from, to)
  {
    ghost var whole := Replaced(s, from, to);
    result := s;
    var pos: nat := 0;
    assert s[0..] == s && s[..0] + whole == whole;
    var found := Find(result, from, pos);
    while found.Pos?
      invariant Progress(whole, from, to, result, pos) && Untouched(s, result, pos) && found == Find(result, from, pos)
      decreases |result| - pos
    {
      ProgressNext(whole, from, to, result, pos, found.index);
      UntouchedNext(s, result, pos, found.index, |from|, to);
      pos := found.index;
      result := Overwrite(result, pos, |from|, to);
      pos := pos + |to|;
      found := Find(result, from, pos);
    }
    ProgressEnd(whole, from, to, result, pos);
  }

  /** Replacing by the pattern itself changes nothing; so does a pattern that does not occur. */
  lemma ReplaceIdentity(s: string, from: string, to: string)
    requires from != ""
    ensures Replaced(s, from, from) == s
    ensures Free(s, from) ==> Replaced(s, from, to) == s
  {
    ReplacedIsJoined(s, from, from);
    JoinedPieces(s, from);
    FindIsFirst(s, from, 0);
  }
}
