/** Cutting the text of a document into chunks for retrieval. */
module Chunks {
  import opened Ordering

  /** White space and line terminators, as String.prototype.trim removes them. */
  predicate IsSpace(c: char) {
    var n := c as int;
    9 <= n <= 13 || n == 0x20 || n == 0xA0 || n == 0x1680 || 0x2000 <= n <= 0x200A || n == 0x2028 || n == 0x2029
    || n == 0x202F || n == 0x205F || n == 0x3000 || n == 0xFEFF
  }

  function TrimStart(s: string): string {
    if s != "" && IsSpace(s[0]) then TrimStart(s[1..]) else s
  }

  function TrimEnd(s: string): string {
    if s != "" && IsSpace(s[|s| - 1]) then TrimEnd(s[..|s| - 1]) else s
  }

  function Trim(s: string): string {
    TrimEnd(TrimStart(s))
  }

  /** The last newline at or before an index, or -1. */
  function LastNewline(s: string, from: int): (r: int)
    requires from < |s|
    ensures r >= 0 ==> r <= from && s[r] == '\n'
    ensures forall i :: 0 <= i <= from && r < i ==> s[i] != '\n'
  {
    if from < 0 then -1 else if s[from] == '\n' then from else LastNewline(s, from - 1)
  }

  /** Where the chunk that starts at an offset ends: at a newline in its second half if there is one. */
  function CutAt(content: string, size: nat, offset: nat): (end: nat)
    requires offset < |content|
    ensures offset <= end <= |content|
  {
    var far := if offset + size < |content| then offset + size else |content|;
    if far < |content| then
      var boundary := LastNewline(content, far);
      if boundary > offset + size / 2 then boundary else far
    else far
  }

  lemma CutBounds(content: string, size: nat, offset: nat)
    requires offset < |content|
    ensures var end := CutAt(content, size, offset);
      && end <= offset + size
      && (size > 0 && end < |content| ==> end >= offset + size / 2 + 1 && offset + size < |content|)
  {
  }

  function Slices(content: string, size: nat, maximum: nat, offset: nat): seq<string>
    decreases maximum
  {
    if offset >= |content| || maximum == 0 then []
    else
      var end := CutAt(content, size, offset);
      [content[offset..end]] + Slices(content, size, maximum - 1, end)
  }

  function Trimmed(slices: seq<string>): (r: seq<string>)
    ensures |r| == |slices| && forall i :: 0 <= i < |slices| ==> r[i] == Trim(slices[i])
  {
    seq(|slices|, i requires 0 <= i < |slices| => Trim(slices[i]))
  }

  predicate NotEmpty(s: string) {
    s != ""
  }

  function Chunks(content: string, size: nat, maximum: nat): seq<string> {
    Filter(Trimmed(Slices(content, size, maximum, 0)), NotEmpty)
  }

  /** The slices taken so far, trimmed, and the rest still to cut from an offset. */
  ghost predicate CutSoFar(content: string, size: nat, maximum: nat, chunks: seq<string>, slices: seq<string>, offset: nat) {
    && |slices| <= maximum && offset <= |content|
    && chunks == Trimmed(slices)
    && Slices(content, size, maximum, 0) == slices + Slices(content, size, maximum - |slices|, offset)
  }

  lemma CutOnce(content: string, size: nat, maximum: nat, chunks: seq<string>, slices: seq<string>, offset: nat, slice: string)
    requires CutSoFar(content, size, maximum, chunks, slices, offset)
    requires offset < |content| && |slices| < maximum && slice == content[offset..CutAt(content, size, offset)]
    ensures CutSoFar(content, size, maximum, chunks + [Trim(slice)], slices + [slice], CutAt(content, size, offset))
  {
    Regroup(slices, [slice], Slices(content, size, maximum - |slices| - 1, CutAt(content, size, offset)));
    TrimmedAppend(slices, slice);
  }

  lemma CutDone(content: string, size: nat, maximum: nat, chunks: seq<string>, slices: seq<string>, offset: nat)
    requires CutSoFar(content, size, maximum, chunks, slices, offset)
    requires offset >= |content| || |slices| == maximum
    ensures chunks == Trimmed(Slices(content, size, maximum, 0))
  {
    assert slices + [] == slices;
  }

  lemma Regroup(a: seq<string>, b: seq<string>, c: seq<string>)
    ensures a + (b + c) == a + b + c
  {
  }

  lemma TrimmedAppend(slices: seq<string>, s: string)
    ensures Trimmed(slices + [s]) == Trimmed(slices) + [Trim(s)]
  {
  }

  method FindCut(content: string, size: nat, offset: nat) returns (end: nat)
    requires offset < |content|
    ensures end == CutAt(content, size, offset)
  {
    end := if offset + size <= |content| then offset + size else |content|;
    if end < |content| {
      var boundary := LastNewline(content, end);
      if boundary > offset + size / 2 {
        end := boundary;
      }
    }
  }

  /** Cuts and trims until the text or the number of chunks is used up. */
  method CutAndTrim(content: string, size: nat, maximum: nat) returns (chunks: seq<string>)
    ensures chunks == Trimmed(Slices(content, size, maximum, 0))
  {
    chunks := [];
    ghost var slices: seq<string> := [];
    var offset := 0;
    while offset < |content| && |chunks| < maximum
      invariant |slices| == |chunks|
      invariant CutSoFar(content, size, maximum, chunks, slices, offset)
      decreases maximum - |chunks|
    {
      var end := FindCut(content, size, offset);
      var slice := content[offset..end];
      CutOnce(content, size, maximum, chunks, slices, offset, slice);
      slices := slices + [slice];
      chunks := chunks + [Trim(slice)];
      offset := end;
    }
    CutDone(content, size, maximum, chunks, slices, offset);
  }

  method ChunkDocumentText(content: string, size: nat, maximum: nat) returns (r: seq<string>)
    ensures r == Chunks(content, size, maximum)
  {
    if content == "" {
      return [];
    }
    var chunks := CutAndTrim(content, size, maximum);
    r := Filter(chunks, NotEmpty);
  }

  // ---------------------------------------------------------------------------
  // How far the slices reach

  /** Where the last slice ends. */
  function Reach(content: string, size: nat, maximum: nat, offset: nat): (end: nat)
    decreases maximum
  {
    if offset >= |content| || maximum == 0 then offset
    else Reach(content, size, maximum - 1, CutAt(content, size, offset))
  }

  function Joined(xs: seq<string>): string {
    if xs == [] then "" else xs[0] + Joined(xs[1..])
  }

  lemma {:induction false} ReachInside(content: string, size: nat, maximum: nat, offset: nat)
    requires offset <= |content|
    ensures offset <= Reach(content, size, maximum, offset) <= |content|
    decreases maximum
  {
    if offset < |content| && maximum > 0 {
      ReachInside(content, size, maximum - 1, CutAt(content, size, offset));
    }
  }

  lemma JoinedFirst(s: string, rest: seq<string>)
    ensures Joined([s] + rest) == s + Joined(rest)
  {
    assert ([s] + rest)[1..] == rest;
  }

  lemma SliceSplit(content: string, a: nat, b: nat, c: nat)
    requires a <= b <= c <= |content|
    ensures content[a..c] == content[a..b] + content[b..c]
  {
  }

  /** The slices lie back to back. */
  lemma {:induction false} SlicesContiguous(content: string, size: nat, maximum: nat, offset: nat)
    requires offset <= |content|
    ensures offset <= Reach(content, size, maximum, offset) <= |content|
    ensures Joined(Slices(content, size, maximum, offset)) == content[offset..Reach(content, size, maximum, offset)]
    decreases maximum
  {
    ReachInside(content, size, maximum, offset);
    if offset < |content| && maximum > 0 {
      var end := CutAt(content, size, offset);
      ReachInside(content, size, maximum - 1, end);
      SlicesContiguous(content, size, maximum - 1, end);
      JoinedFirst(content[offset..end], Slices(content, size, maximum - 1, end));
      SliceSplit(content, offset, end, Reach(content, size, maximum, offset));
    }
  }

  /** At most `maximum` slices of at most `size` characters. */
  lemma {:induction false} SlicesSized(content: string, size: nat, maximum: nat, offset: nat)
    requires offset <= |content|
    ensures |Slices(content, size, maximum, offset)| <= maximum
    ensures forall s :: s in Slices(content, size, maximum, offset) ==> |s| <= size
    decreases maximum
  {
    if offset < |content| && maximum > 0 {
      CutBounds(content, size, offset);
      SlicesSized(content, size, maximum - 1, CutAt(content, size, offset));
    }
  }

  /** Each slice but the last is longer than half the size. */
  lemma {:induction false} SliceLong(content: string, size: nat, maximum: nat, offset: nat, i: nat)
    requires size > 0 && i < |Slices(content, size, maximum, offset)| - 1
    ensures |Slices(content, size, maximum, offset)[i]| > size / 2
    decreases maximum
  {
    var end := CutAt(content, size, offset);
    if i == 0 {
      assert Slices(content, size, maximum - 1, end) != [];
      CutBounds(content, size, offset);
    } else {
      SliceLong(content, size, maximum - 1, end, i - 1);
    }
  }

  /** The longest text that is certain to be cut to its end. */
  function Capacity(size: nat, maximum: nat): int {
    (maximum - 1) * (size / 2 + 1) + size
  }

  /** A text within the capacity is cut to its end. */
  lemma {:induction false} ReachesEnd(content: string, size: nat, maximum: nat, offset: nat)
    requires offset <= |content| && size > 0 && maximum > 0 && |content| <= offset + Capacity(size, maximum)
    ensures Reach(content, size, maximum, offset) == |content|
    decreases maximum
  {
    if offset < |content| {
      var end := CutAt(content, size, offset);
      CutBounds(content, size, offset);
      if maximum > 1 {
        OneMore(maximum - 2, size / 2 + 1);
        if end < |content| {
          ReachesEnd(content, size, maximum - 1, end);
        }
      }
    }
  }

  lemma {:induction false} ReachBounded(content: string, size: nat, maximum: nat, offset: nat)
    requires offset <= |content|
    ensures Reach(content, size, maximum, offset) <= offset + maximum * size
    decreases maximum
  {
    if offset < |content| && maximum > 0 {
      CutBounds(content, size, offset);
      ReachBounded(content, size, maximum - 1, CutAt(content, size, offset));
      OneMore(maximum - 1, size);
    }
  }

  lemma OneMore(n: int, k: int)
    ensures (n + 1) * k == n * k + k
  {
  }

  // ---------------------------------------------------------------------------
  // What the chunks keep

  /** The characters that are not white space, in order. */
  function Visible(s: string): string {
    if s == "" then "" else (if IsSpace(s[0]) then "" else [s[0]]) + Visible(s[1..])
  }

  lemma {:induction false} VisibleConcat(a: string, b: string)
    ensures Visible(a + b) == Visible(a) + Visible(b)
  {
    if a == "" {
      assert a + b == b;
    } else {
      assert (a + b)[1..] == a[1..] + b;
      VisibleConcat(a[1..], b);
    }
  }

  lemma {:induction false} TrimStartKeeps(s: string)
    ensures Visible(TrimStart(s)) == Visible(s) && |TrimStart(s)| <= |s|
    ensures TrimStart(s) != "" ==> !IsSpace(TrimStart(s)[0])
  {
    if s != "" && IsSpace(s[0]) {
      TrimStartKeeps(s[1..]);
    }
  }

  lemma {:induction false} TrimEndKeeps(s: string)
    ensures Visible(TrimEnd(s)) == Visible(s) && |TrimEnd(s)| <= |s|
    ensures TrimEnd(s) != "" ==> TrimEnd(s)[0] == s[0] && !IsSpace(TrimEnd(s)[|TrimEnd(s)| - 1])
  {
    if s != "" && IsSpace(s[|s| - 1]) {
      TrimEndKeeps(s[..|s| - 1]);
      VisibleConcat(s[..|s| - 1], [s[|s| - 1]]);
      assert s == s[..|s| - 1] + [s[|s| - 1]];
    }
  }

  /** Trimming removes white space only, and all of it at both ends. */
  lemma TrimKeeps(s: string)
    ensures Visible(Trim(s)) == Visible(s) && |Trim(s)| <= |s|
    ensures Trim(s) != "" ==> !IsSpace(Trim(s)[0]) && !IsSpace(Trim(s)[|Trim(s)| - 1])
  {
    TrimStartKeeps(s);
    TrimEndKeeps(TrimStart(s));
  }

  lemma {:induction false} JoinedConcat(xs: seq<string>, ys: seq<string>)
    ensures Joined(xs + ys) == Joined(xs) + Joined(ys)
  {
    if xs == [] {
      assert xs + ys == ys;
    } else {
      assert (xs + ys)[1..] == xs[1..] + ys;
      JoinedConcat(xs[1..], ys);
    }
  }

  lemma JoinedOne(s: string)
    ensures Joined([s]) == s
  {
    assert Joined([s]) == s + Joined([]);
  }

  lemma JoinedSnoc(xs: seq<string>, s: string)
    ensures Visible(Joined(xs + [s])) == Visible(Joined(xs)) + Visible(s)
  {
    JoinedConcat(xs, [s]);
    JoinedOne(s);
    VisibleConcat(Joined(xs), s);
  }

  lemma KeptSnoc(xs: seq<string>, s: string)
    ensures Visible(Joined(Filter(xs + [s], NotEmpty))) == Visible(Joined(Filter(xs, NotEmpty))) + Visible(s)
  {
    assert (xs + [s])[..|xs|] == xs;
    JoinedSnoc(Filter(xs, NotEmpty), s);
  }

  lemma {:induction false} ChunksKeepVisible(slices: seq<string>)
    ensures Visible(Joined(Filter(Trimmed(slices), NotEmpty))) == Visible(Joined(slices))
  {
    if slices != [] {
      var front, last := slices[..|slices| - 1], slices[|slices| - 1];
      assert slices == front + [last];
      ChunksKeepVisible(front);
      JoinedSnoc(front, last);
      TrimmedAppend(front, last);
      KeptSnoc(Trimmed(front), Trim(last));
      TrimKeeps(last);
    }
  }

  lemma ChunksCounted(content: string, size: nat, maximum: nat)
    ensures |Chunks(content, size, maximum)| <= maximum
  {
    SlicesSized(content, size, maximum, 0);
    FilterNoLonger(Trimmed(Slices(content, size, maximum, 0)), NotEmpty);
  }

  /** Every chunk is a trimmed text of at most `size` characters. */
  lemma ChunksSized(content: string, size: nat, maximum: nat, chunk: string)
    requires chunk in Chunks(content, size, maximum)
    ensures 0 < |chunk| <= size && !IsSpace(chunk[0]) && !IsSpace(chunk[|chunk| - 1])
  {
    var slices := Slices(content, size, maximum, 0);
    SlicesSized(content, size, maximum, 0);
    assert chunk in Trimmed(slices) && NotEmpty(chunk);
    var i :| 0 <= i < |slices| && Trimmed(slices)[i] == chunk;
    TrimKeeps(slices[i]);
    assert slices[i] in slices;
  }

  lemma {:induction false} FilterNoLonger<T(!new)>(xs: seq<T>, p: T -> bool)
    ensures |Filter(xs, p)| <= |xs|
  {
    if xs != [] {
      FilterNoLonger(xs[..|xs| - 1], p);
    }
  }

  /** The chunks hold exactly the visible characters before the point that the slices reach, in order. */
  lemma ChunksKeepText(content: string, size: nat, maximum: nat)
    ensures Reach(content, size, maximum, 0) <= |content|
    ensures Visible(Joined(Chunks(content, size, maximum))) == Visible(content[..Reach(content, size, maximum, 0)])
  {
    SlicesContiguous(content, size, maximum, 0);
    ChunksKeepVisible(Slices(content, size, maximum, 0));
    assert content[0..Reach(content, size, maximum, 0)] == content[..Reach(content, size, maximum, 0)];
  }

  /** No visible character is lost exactly when only white space lies beyond that point. */
  lemma NothingLostExactly(content: string, size: nat, maximum: nat)
    ensures Reach(content, size, maximum, 0) <= |content|
    ensures Visible(Joined(Chunks(content, size, maximum))) == Visible(content) <==>
            Visible(content[Reach(content, size, maximum, 0)..]) == ""
  {
    ChunksKeepText(content, size, maximum);
    var reach := Reach(content, size, maximum, 0);
    VisibleConcat(content[..reach], content[reach..]);
    assert content == content[..reach] + content[reach..];
  }

  /** A text within the capacity loses nothing. */
  lemma ShortTextKept(content: string, size: nat, maximum: nat)
    requires size > 0 && maximum > 0 && |content| <= Capacity(size, maximum)
    ensures Visible(Joined(Chunks(content, size, maximum))) == Visible(content)
  {
    ReachesEnd(content, size, maximum, 0);
    SlicesContiguous(content, size, maximum, 0);
    assert content[|content|..] == "";
    NothingLostExactly(content, size, maximum);
  }

  /** A visible character at or beyond maximum * size is always lost. */
  lemma LongTextCut(content: string, size: nat, maximum: nat, i: nat)
    requires maximum * size <= i < |content| && !IsSpace(content[i])
    ensures Visible(Joined(Chunks(content, size, maximum))) != Visible(content)
  {
    ReachBounded(content, size, maximum, 0);
    LostBeyondReach(content, size, maximum, i);
  }

  lemma LostBeyondReach(content: string, size: nat, maximum: nat, i: nat)
    requires Reach(content, size, maximum, 0) <= i < |content| && !IsSpace(content[i])
    ensures Visible(Joined(Chunks(content, size, maximum))) != Visible(content)
  {
    NothingLostExactly(content, size, maximum);
    VisibleHas(content[Reach(content, size, maximum, 0)..], i - Reach(content, size, maximum, 0));
  }

  lemma {:induction false} VisibleHas(s: string, i: nat)
    requires i < |s| && !IsSpace(s[i])
    ensures Visible(s) != ""
  {
    if i > 0 {
      VisibleHas(s[1..], i - 1);
    }
  }

  // ---------------------------------------------------------------------------
  // The capacity is sharp

  /**
   A text as the worker hands it over: no NUL, carriage return or tab, no two spaces in a row, and
   no white space at either end.
   */
  predicate Document(s: string) {
    && (forall i :: 0 <= i < |s| ==> s[i] as int != 0 && s[i] != '\r' && s[i] != '\t')
    && (forall i :: 0 < i < |s| ==> !(s[i - 1] == ' ' && s[i] == ' '))
    && (s != "" ==> !IsSpace(s[0]) && !IsSpace(s[|s| - 1]))
  }

  predicate BreakAt(size: nat, length: nat, i: nat) {
    size >= 3 && 0 < i < length - 1 && i % (size / 2 + 1) == 0
  }

  /** A document whose newlines make every cut as short as it can be. */
  function SharpText(size: nat, length: nat): (s: string)
    ensures |s| == length
    ensures forall i :: 0 <= i < length ==> s[i] == if BreakAt(size, length, i) then '\n' else 'x'
  {
    seq(length, i requires 0 <= i < length => if BreakAt(size, length, i) then '\n' else 'x')
  }

  lemma SharpTextIsDocument(size: nat, length: nat)
    ensures Document(SharpText(size, length))
  {
  }

  lemma NextMultiple(n: nat, step: nat, k: nat)
    requires k < step
    ensures (n * step + k) % step == k
  {
    var m := n * step + k;
    var q, r := m / step, m % step;
    assert q * step + r == m && r < step;
    if q < n {
      MoreSteps(q + 1, n, step);
      OneMore(q, step);
    } else if n < q {
      MoreSteps(n + 1, q, step);
      OneMore(n, step);
    }
  }

  lemma MoreSteps(a: nat, b: nat, step: nat)
    requires a <= b
    ensures a * step <= b * step
  {
  }

  lemma SharpCut(size: nat, length: nat, n: nat)
    requires size > 0 && n * (size / 2 + 1) + size < length
    ensures CutAt(SharpText(size, length), size, n * (size / 2 + 1)) == (n + 1) * (size / 2 + 1)
  {
    var step, content := size / 2 + 1, SharpText(size, length);
    var offset := n * step;
    OneMore(n, step);
    if size >= 3 {
      NextMultiple(n + 1, step, 0);
      assert BreakAt(size, length, offset + step);
      assert content[offset + step] == '\n';
      forall i: nat | offset + step < i <= offset + size ensures content[i] != '\n' {
        NextMultiple(n + 1, step, i - offset - step);
      }
    }
  }

  lemma {:induction false} SharpReach(size: nat, length: nat, maximum: nat, n: nat)
    requires size > 0 && maximum > 0 && (n + maximum - 1) * (size / 2 + 1) + size < length
    ensures Reach(SharpText(size, length), size, maximum, n * (size / 2 + 1)) == (n + maximum) * (size / 2 + 1)
    decreases maximum
  {
    MoreSteps(n, n + maximum - 1, size / 2 + 1);
    SharpCut(size, length, n);
    if maximum > 1 {
      SharpReach(size, length, maximum - 1, n + 1);
    }
  }

  lemma SharpTextLoses(size: nat, maximum: nat, length: nat)
    requires size > 0 && maximum > 0 && length > Capacity(size, maximum)
    ensures var s := SharpText(size, length); Visible(Joined(Chunks(s, size, maximum))) != Visible(s)
  {
    var step, s := size / 2 + 1, SharpText(size, length);
    SharpReach(size, length, maximum, 0);
    assert 0 * step == 0;
    OneMore(maximum - 1, step);
    if size >= 3 {
      NextMultiple(maximum, step, 1);
      LostBeyondReach(s, size, maximum, maximum * step + 1);
    } else {
      LostBeyondReach(s, size, maximum, maximum * step);
    }
  }

  ghost predicate KeepsAll(size: nat, maximum: nat, length: nat) {
    forall s: string :: |s| == length && Document(s) ==> Visible(Joined(Chunks(s, size, maximum))) == Visible(s)
  }

  /** Every document of a length keeps all its visible characters exactly when the length is within the capacity. */
  lemma CapacityExact(size: nat, maximum: nat, length: nat)
    requires size > 0 && maximum > 0
    ensures KeepsAll(size, maximum, length) <==> length <= Capacity(size, maximum)
  {
    if length <= Capacity(size, maximum) {
      forall s: string | |s| == length && Document(s) ensures Visible(Joined(Chunks(s, size, maximum))) == Visible(s) {
        ShortTextKept(s, size, maximum);
      }
    } else {
      SharpTextIsDocument(size, length);
      SharpTextLoses(size, maximum, length);
    }
  }

  lemma WorkerCapacityFor(size: nat, maximum: nat)
    requires size == 1600 && maximum == 100
    ensures KeepsAll(size, maximum, 80_899) && !KeepsAll(size, maximum, 80_900)
  {
    assert Capacity(size, maximum) == 80_899;
    CapacityExact(size, maximum, 80_899);
    CapacityExact(size, maximum, 80_900);
  }

  /** Whatever is not cut to its end is cut at least this far. */
  lemma {:induction false} ReachesAtLeast(content: string, size: nat, maximum: nat, offset: nat)
    requires offset <= |content| && size > 0
    ensures var reach := Reach(content, size, maximum, offset);
      reach == |content| || reach >= offset + maximum * (size / 2 + 1)
    decreases maximum
  {
    if offset < |content| && maximum > 0 {
      var end := CutAt(content, size, offset);
      CutBounds(content, size, offset);
      OneMore(maximum - 1, size / 2 + 1);
      ReachesAtLeast(content, size, maximum - 1, end);
      if end == |content| {
        ReachInside(content, size, maximum - 1, end);
      }
    }
  }

  ghost predicate AlwaysReached(size: nat, maximum: nat, length: nat, i: nat) {
    forall s: string :: |s| == length && Document(s) ==> i < Reach(s, size, maximum, 0)
  }

  /** In documents too long to be kept whole, a position is certain to be reached exactly below maximum * (size / 2 + 1). */
  lemma AlwaysReachedExactly(size: nat, maximum: nat, length: nat, i: nat)
    requires size > 0 && maximum > 0 && length > Capacity(size, maximum) && i < length
    ensures AlwaysReached(size, maximum, length, i) <==> i < maximum * (size / 2 + 1)
  {
    if i < maximum * (size / 2 + 1) {
      forall s: string | |s| == length && Document(s) ensures i < Reach(s, size, maximum, 0) {
        ReachesAtLeast(s, size, maximum, 0);
      }
    } else {
      SharpReach(size, length, maximum, 0);
      assert 0 * (size / 2 + 1) == 0;
      SharpTextIsDocument(size, length);
      assert |SharpText(size, length)| == length;
    }
  }

  lemma WorkerBound(size: nat, maximum: nat)
    requires size == 1600 && maximum == 100
    ensures Capacity(size, maximum) == 80_899 && maximum * (size / 2 + 1) == 80_100
  {
  }

  /** With the sizes the worker uses, 80 100 characters of a longer document are certain to be reached. */
  lemma WorkerReach(size: nat, maximum: nat, length: nat, i: nat)
    requires size == 1600 && maximum == 100 && length > 80_899 && i < length
    ensures AlwaysReached(size, maximum, length, i) <==> i < 80_100
  {
    WorkerBound(size, maximum);
    ReachedBelow(size, maximum, length, i, 80_100);
  }

  lemma ReachedBelow(size: nat, maximum: nat, length: nat, i: nat, bound: nat)
    requires size > 0 && maximum > 0 && length > Capacity(size, maximum) && i < length
    requires bound == maximum * (size / 2 + 1)
    ensures AlwaysReached(size, maximum, length, i) <==> i < bound
  {
    AlwaysReachedExactly(size, maximum, length, i);
  }

  /** With the sizes the worker uses, 80 899 characters are always kept. */
  lemma WorkerCapacity()
    ensures KeepsAll(1600, 100, 80_899) && !KeepsAll(1600, 100, 80_900)
  {
    WorkerCapacityFor(1600, 100);
  }

  // ---------------------------------------------------------------------------
  // Where the cuts fall

  /**
   A slice that starts at a and has text beyond its size ends at the last newline of its second
   half, or, if there is none, at its full size; any other slice ends with the text.
   */
  ghost predicate RightCut(content: string, size: nat, a: nat, e: nat) {
    a <= e <= |content| &&
    if a + size < |content| then
      || (a + size / 2 < e <= a + size && content[e] == '\n' && forall i :: e < i <= a + size ==> content[i] != '\n')
      || (e == a + size && forall i :: a + size / 2 < i < a + size ==> content[i] != '\n')
    else e == |content|
  }

  lemma CutIsRight(content: string, size: nat, offset: nat)
    requires offset < |content|
    ensures RightCut(content, size, offset, CutAt(content, size, offset))
  {
  }

  /** The slice stands at a in the text and is cut right. */
  ghost predicate CutFrom(content: string, size: nat, a: nat, slice: string) {
    RightCut(content, size, a, a + |slice|) && slice == content[a..a + |slice|]
  }

  lemma FirstCut(content: string, size: nat, offset: nat)
    requires offset < |content|
    ensures CutFrom(content, size, offset, content[offset..CutAt(content, size, offset)])
  {
    CutIsRight(content, size, offset);
  }

  lemma LengthBefore(first: string, rest: seq<string>, i: nat)
    requires 0 < i <= |rest| + 1
    ensures |Joined(([first] + rest)[..i])| == |first| + |Joined(rest[..i - 1])|
  {
    assert ([first] + rest)[..i] == [first] + rest[..i - 1];
    JoinedFirst(first, rest[..i - 1]);
  }

  /** Every slice lies where those before it end, and is cut right. */
  lemma {:induction false} SlicesCutRight(content: string, size: nat, maximum: nat, offset: nat, i: nat)
    requires i < |Slices(content, size, maximum, offset)|
    ensures var xs := Slices(content, size, maximum, offset);
      CutFrom(content, size, offset + |Joined(xs[..i])|, xs[i])
    decreases maximum
  {
    var end := CutAt(content, size, offset);
    var first, rest := content[offset..end], Slices(content, size, maximum - 1, end);
    if i == 0 {
      assert Slices(content, size, maximum, offset)[..0] == [];
      FirstCut(content, size, offset);
    } else {
      LengthBefore(first, rest, i);
      SlicesCutRight(content, size, maximum - 1, end, i - 1);
    }
  }

  /** Slices are taken until the text or their number is used up. */
  lemma {:induction false} SlicesGoOn(content: string, size: nat, maximum: nat, offset: nat)
    requires offset <= |content|
    ensures Reach(content, size, maximum, offset) == |content| || |Slices(content, size, maximum, offset)| == maximum
    decreases maximum
  {
    if offset < |content| && maximum > 0 {
      SlicesGoOn(content, size, maximum - 1, CutAt(content, size, offset));
    }
  }

  /** The chunks are, in order, what trimming leaves of those slices that hold something visible. */
  lemma ChunkIsTrimmedSlice(content: string, size: nat, maximum: nat, s: string)
    ensures s in Chunks(content, size, maximum) <==>
            s != "" && exists x :: x in Slices(content, size, maximum, 0) && s == Trim(x)
  {
    var slices := Slices(content, size, maximum, 0);
    if x :| x in slices && s == Trim(x) {
      var i :| 0 <= i < |slices| && slices[i] == x;
      assert Trimmed(slices)[i] == s;
    }
    if s in Trimmed(slices) {
      var i :| 0 <= i < |slices| && Trimmed(slices)[i] == s;
      assert slices[i] in slices;
    }
  }
}
