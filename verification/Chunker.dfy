/** Overlapping token windows, the source ranges of tokens, and the chunks made of them. */
module Chunker {
  import opened Wrappers
  import opened Counting
  import opened Text
  import Norm = Normalize
  import Ids

  datatype Config = Config(windowSize: int, overlap: int)

  datatype ChunkError = BadWindow | BadOverlap | LengthMismatch | BadOffset | BlankVersion | BadId(error: Ids.IdError)

  // ChunkerConfig refuses anything else.
  predicate IsConfig(config: Config) {
    0 <= config.overlap < config.windowSize
  }

  /******* Windows *******/

  type Window = (nat, nat)

  // The windows from a start on; the one that reaches the end is the last.
  function WindowsFrom(config: Config, count: nat, start: nat): seq<Window>
    requires IsConfig(config)
    decreases count - start
  {
    if start >= count then []
    else
      var end := if start + config.windowSize <= count then start + config.windowSize else count;
      if end == count then [(start, end)]
      else [(start, end)] + WindowsFrom(config, count, start + config.windowSize - config.overlap)
  }

  function Windows(config: Config, count: nat): seq<Window>
    requires IsConfig(config)
  {
    WindowsFrom(config, count, 0)
  }

  // Consecutive windows share exactly the overlap; all but the last have full size, and only the last reaches the end.
  ghost predicate AreWindowsFrom(config: Config, count: nat, start: nat, windows: seq<Window>) {
    && windows != [] && windows[0].0 == start
    && windows[|windows| - 1].1 == count
    && (forall i :: 0 <= i < |windows| ==> IsWindow(config, windows[i]))
    && (forall i :: 0 <= i < |windows| - 1 ==> IsFollowed(config, count, windows[i], windows[i + 1]))
  }

  ghost predicate IsWindow(config: Config, window: Window) {
    window.0 < window.1 <= window.0 + config.windowSize
  }

  ghost predicate IsFollowed(config: Config, count: nat, window: Window, next: Window) {
    && window.1 < count && window.1 == window.0 + config.windowSize
    && next.0 == window.1 - config.overlap && next.1 > window.1
  }

  lemma {:induction false} WindowsAre(config: Config, count: nat, start: nat)
    requires IsConfig(config) && start < count
    ensures AreWindowsFrom(config, count, start, WindowsFrom(config, count, start))
    decreases count - start
  {
    var end := start + config.windowSize;
    if end < count {
      WindowsAre(config, count, end - config.overlap);
      OneMoreWindow(config, count, start, WindowsFrom(config, count, end - config.overlap));
    } else {
      assert IsWindow(config, (start, count));
    }
  }

  lemma {:induction false} OneMoreWindow(config: Config, count: nat, start: nat, rest: seq<Window>)
    requires IsConfig(config) && start + config.windowSize < count
    requires AreWindowsFrom(config, count, start + config.windowSize - config.overlap, rest)
    ensures AreWindowsFrom(config, count, start, [(start, start + config.windowSize)] + rest)
  {
    var first: Window := (start, start + config.windowSize);
    var windows := [first] + rest;
    assert IsWindow(config, first);
    assert IsFollowed(config, count, first, rest[0]) by {
      assert |rest| > 1 ==> IsFollowed(config, count, rest[0], rest[1]);
    }
    forall i | 0 <= i < |windows| - 1 ensures IsFollowed(config, count, windows[i], windows[i + 1]) {
      if i > 0 {
        assert windows[i] == rest[i - 1] && windows[i + 1] == rest[i];
        assert IsFollowed(config, count, rest[i - 1], rest[i - 1 + 1]);
      }
    }
  }

  lemma {:induction false} TokenIsCovered(config: Config, count: nat, start: nat, token: nat) returns (i: nat)
    requires IsConfig(config) && start <= token < count
    ensures i < |WindowsFrom(config, count, start)|
    ensures WindowsFrom(config, count, start)[i].0 <= token < WindowsFrom(config, count, start)[i].1
    decreases count - start
  {
    var end := start + config.windowSize;
    if end >= count || token < end {
      i := 0;
    } else {
      i := TokenIsCovered(config, count, end - config.overlap, token);
      i := i + 1;
    }
  }

  /** Main result on windows: they cover every token, consecutive ones share exactly the overlap, all but the last are
      full, and only the last reaches the end, so that it holds more than the overlap unless it is the only one. */
  lemma {:induction false} WindowsCover(config: Config, count: nat)
    requires IsConfig(config) && count > 0
    ensures AreWindowsFrom(config, count, 0, Windows(config, count))
    ensures forall token: nat :: token < count ==> IsCovered(Windows(config, count), token)
    ensures var windows := Windows(config, count);
            |windows| > 1 ==> windows[|windows| - 1].1 - windows[|windows| - 1].0 > config.overlap
  {
    WindowsAre(config, count, 0);
    forall token: nat | token < count ensures IsCovered(Windows(config, count), token) {
      var i := TokenIsCovered(config, count, 0, token);
    }
    var windows := Windows(config, count);
    if |windows| > 1 {
      var i := |windows| - 2;
      assert IsFollowed(config, count, windows[i], windows[i + 1]);
    }
  }

  ghost predicate IsCovered(windows: seq<Window>, token: nat) {
    exists i :: 0 <= i < |windows| && windows[i].0 <= token < windows[i].1
  }

  /******* Source offsets *******/

  // Ordered, non-overlapping, non-empty ranges of a text.
  ghost predicate AreOffsets(offsets: seq<(int, int)>, length: nat) {
    && (forall i :: 0 <= i < |offsets| ==> 0 <= offsets[i].0 < offsets[i].1 <= length)
    && (forall i, j :: 0 <= i < j < |offsets| ==> offsets[i].1 <= offsets[j].0)
  }

  /** The loop over the ranges, which looks only at each and the one before, accepts exactly ordered ranges. */
  method ValidatedOffsets(tokenCount: nat, raw: seq<(int, int)>, length: nat)
    returns (result: Result<seq<(int, int)>, ChunkError>)
    ensures result.Ok? <==> tokenCount == |raw| && AreOffsets(raw, length)
    ensures result.Ok? ==> result.value == raw
  {
    if tokenCount != |raw| {
      return Err(LengthMismatch);
    }
    var offsets: seq<(int, int)> := [];
    var previousEnd := 0;
    for k := 0 to |raw|
      invariant offsets == raw[..k] && AreOffsets(raw[..k], length)
      invariant previousEnd == if k == 0 then 0 else raw[k - 1].1
    {
      var (start, end) := raw[k];
      if start < previousEnd || !(0 <= start < end <= length) {
        assert !AreOffsets(raw, length) by {
          assert k > 0 && start < previousEnd ==> raw[k - 1].1 > raw[k].0;
        }
        return Err(BadOffset);
      }
      assert forall i :: 0 <= i < k ==> raw[i] == raw[..k][i];
      assert forall i :: 0 <= i < k - 1 ==> raw[..k][i].1 <= raw[..k][k - 1].0;
      offsets := offsets + [(start, end)];
      previousEnd := end;
    }
    assert raw[..|raw|] == raw;
    result := Ok(offsets);
  }

  // The source text of the tokens in a range.
  function Decode(text: string, offsets: seq<(int, int)>, start: nat, end: nat): string
    requires AreOffsets(offsets, |text|) && start <= end <= |offsets|
  {
    if start == end then "" else Between(text, offsets, start, end)
  }

  function Between(text: string, offsets: seq<(int, int)>, start: nat, end: nat): string
    requires AreOffsets(offsets, |text|) && start < end <= |offsets|
  {
    assert start < end - 1 ==> offsets[start].1 <= offsets[end - 1].0;
    text[offsets[start].0..offsets[end - 1].1]
  }

  /******* Stitching *******/

  // The windows' texts put together: of each window after the first, what follows the tokens it shares with the one
  // before.
  function Stitch(text: string, offsets: seq<(int, int)>, windows: seq<Window>): string
    requires AreOffsets(offsets, |text|) && FitTogether(windows, |offsets|)
  {
    if |windows| == 1 then Decode(text, offsets, windows[0].0, windows[0].1)
    else
      FitRest(windows, |offsets|);
      Joined(text, offsets, windows[0], windows[1].0, Stitch(text, offsets, windows[1..]))
  }

  // The text of a window, and what follows in the rest the tokens that the next one shares with it.
  function Joined(text: string, offsets: seq<(int, int)>, first: Window, next: nat, rest: string): string
    requires AreOffsets(offsets, |text|) && first.0 < first.1 <= |offsets| && next <= first.1
  {
    var shared := |Decode(text, offsets, next, first.1)|;
    Decode(text, offsets, first.0, first.1) + (if shared <= |rest| then rest[shared..] else "")
  }

  ghost predicate FitTogether(windows: seq<Window>, count: nat) {
    && windows != []
    && (forall i :: 0 <= i < |windows| ==> windows[i].0 < windows[i].1 <= count)
    && (forall i :: 0 <= i < |windows| - 1 ==> windows[i].0 < windows[i + 1].0 <= windows[i].1 < windows[i + 1].1)
  }

  lemma {:induction false} WindowsFit(config: Config, count: nat)
    requires IsConfig(config) && count > 0
    ensures FitTogether(Windows(config, count), count)
  {
    var windows := Windows(config, count);
    WindowsAre(config, count, 0);
    WindowsEnd(config, count, windows);
    forall i | 0 <= i < |windows| - 1 ensures windows[i].0 < windows[i + 1].0 <= windows[i].1 < windows[i + 1].1 {
      assert IsFollowed(config, count, windows[i], windows[i + 1]);
    }
  }

  lemma {:induction false} WindowsEnd(config: Config, count: nat, windows: seq<Window>)
    requires AreWindowsFrom(config, count, 0, windows)
    ensures forall i :: 0 <= i < |windows| ==> windows[i].0 < windows[i].1 <= count
  {
    forall i | 0 <= i < |windows| ensures windows[i].0 < windows[i].1 <= count {
      assert IsWindow(config, windows[i]);
      if i < |windows| - 1 {
        assert IsFollowed(config, count, windows[i], windows[i + 1]);
      }
    }
  }

  // The source text that no token between two windows covers.
  function Gap(offsets: seq<(int, int)>, windows: seq<Window>, i: nat): int
    requires i < |windows| - 1 && 0 < windows[i].1 <= |offsets| && windows[i + 1].0 < |offsets|
  {
    if windows[i + 1].0 < windows[i].1 then 0 else offsets[windows[i + 1].0].0 - offsets[windows[i].1 - 1].1
  }

  ghost predicate HasNoGap(offsets: seq<(int, int)>, windows: seq<Window>)
    requires FitTogether(windows, |offsets|)
  {
    forall i :: 0 <= i < |windows| - 1 ==> Gap(offsets, windows, i) == 0
  }

  lemma {:induction false} FitRest(windows: seq<Window>, count: nat)
    requires FitTogether(windows, count) && |windows| > 1
    ensures FitTogether(windows[1..], count)
  {
    var rest := windows[1..];
    forall i | 0 <= i < |rest| - 1 ensures rest[i].0 < rest[i + 1].0 <= rest[i].1 < rest[i + 1].1 {
      assert rest[i] == windows[i + 1] && rest[i + 1] == windows[i + 2];
    }
  }

  function Whole(text: string, offsets: seq<(int, int)>, windows: seq<Window>): string
    requires AreOffsets(offsets, |text|) && FitTogether(windows, |offsets|)
  {
    Last(windows);
    Decode(text, offsets, windows[0].0, windows[|windows| - 1].1)
  }

  lemma {:induction false} Last(windows: seq<Window>)
    requires windows != [] && forall i :: 0 <= i < |windows| - 1
                                          ==> windows[i].0 < windows[i + 1].0 <= windows[i].1 < windows[i + 1].1
    requires forall i :: 0 <= i < |windows| ==> windows[i].0 < windows[i].1
    ensures windows[0].0 < windows[|windows| - 1].1
    ensures |windows| > 1 ==> windows[0].1 < windows[|windows| - 1].1
    decreases |windows|
  {
    if |windows| > 1 {
      var rest := windows[1..];
      forall i | 0 <= i < |rest| - 1 ensures rest[i].0 < rest[i + 1].0 <= rest[i].1 < rest[i + 1].1 {
        assert rest[i] == windows[i + 1] && rest[i + 1] == windows[i + 2];
      }
      Last(rest);
    }
  }

  // Two ranges that share tokens, put together.
  lemma {:induction false} DecodeOverlap(text: string, offsets: seq<(int, int)>, a: nat, b: nat, c: nat, d: nat)
    requires AreOffsets(offsets, |text|) && a < b <= c < d <= |offsets|
    ensures b < c ==> Decode(text, offsets, a, c) + Decode(text, offsets, b, d)[|Decode(text, offsets, b, c)|..]
                      == Decode(text, offsets, a, d)
    ensures b < c ==> |Decode(text, offsets, b, c)| <= |Decode(text, offsets, b, d)|
    ensures b == c ==> |Decode(text, offsets, a, c)| + |Decode(text, offsets, b, d)| + (offsets[b].0 - offsets[c - 1].1)
                       == |Decode(text, offsets, a, d)|
    ensures b == c && offsets[b].0 == offsets[c - 1].1
            ==> Decode(text, offsets, a, c) + Decode(text, offsets, b, d) == Decode(text, offsets, a, d)
  {
    assert offsets[c - 1].1 <= offsets[d - 1].0;
    assert offsets[a].1 <= offsets[b].0;
    assert b < c - 1 ==> offsets[b].1 <= offsets[c - 1].0;
    assert a < c - 1 ==> offsets[a].1 <= offsets[c - 1].0;
    var p, q, r, s := offsets[a].0, offsets[b].0, offsets[c - 1].1, offsets[d - 1].1;
    if b < c || q == r {
      JoinSlices(text, p, q, r, s);
    }
  }

  lemma {:induction false} JoinSlices(text: string, p: nat, q: nat, r: nat, s: nat)
    requires p <= q <= r <= s <= |text|
    ensures text[p..r] + text[q..s][r - q..] == text[p..s]
    ensures q == r ==> text[p..r] + text[q..s] == text[p..s]
  {
  }

  lemma {:induction false} HasNoGapRest(offsets: seq<(int, int)>, windows: seq<Window>)
    requires FitTogether(windows, |offsets|) && FitTogether(windows[1..], |offsets|) && |windows| > 1
    ensures HasNoGap(offsets, windows) <==> Gap(offsets, windows, 0) == 0 && HasNoGap(offsets, windows[1..])
  {
    var rest := windows[1..];
    assert forall i: nat :: i < |rest| - 1 ==> Gap(offsets, rest, i) == Gap(offsets, windows, i + 1);
    if Gap(offsets, windows, 0) == 0 && HasNoGap(offsets, rest) {
      forall i: nat | i < |windows| - 1 ensures Gap(offsets, windows, i) == 0 {
        assert i > 0 ==> Gap(offsets, rest, i - 1) == 0;
      }
    }
    if HasNoGap(offsets, windows) {
      forall i: nat | i < |rest| - 1 ensures Gap(offsets, rest, i) == 0 {
        assert Gap(offsets, windows, i + 1) == 0;
      }
    }
  }

  lemma {:induction false} Ends(windows: seq<Window>, count: nat)
    requires FitTogether(windows, count) && |windows| > 1
    ensures windows[0].0 < windows[1].0 <= windows[0].1 < windows[|windows| - 1].1 <= count
    ensures windows[1..][0] == windows[1] && windows[1..][|windows[1..]| - 1] == windows[|windows| - 1]
  {
    Last(windows);
  }

  lemma {:induction false} StitchOne(text: string, offsets: seq<(int, int)>, windows: seq<Window>, rest: string)
    requires AreOffsets(offsets, |text|) && FitTogether(windows, |offsets|) && |windows| > 1
             && FitTogether(windows[1..], |offsets|)
    requires rest == Stitch(text, offsets, windows[1..]) && |rest| <= |Whole(text, offsets, windows[1..])|
    requires |rest| == |Whole(text, offsets, windows[1..])| ==> rest == Whole(text, offsets, windows[1..])
    ensures |Stitch(text, offsets, windows)| <= |Whole(text, offsets, windows)|
    ensures |rest| == |Whole(text, offsets, windows[1..])| && Gap(offsets, windows, 0) == 0
            ==> Stitch(text, offsets, windows) == Whole(text, offsets, windows)
    ensures |rest| < |Whole(text, offsets, windows[1..])| || Gap(offsets, windows, 0) > 0
            ==> |Stitch(text, offsets, windows)| < |Whole(text, offsets, windows)|
    ensures Gap(offsets, windows, 0) >= 0
  {
    Ends(windows, |offsets|);
    WholesAre(text, offsets, windows);
    assert Stitch(text, offsets, windows) == Joined(text, offsets, windows[0], windows[1].0, rest);
    JoinTexts(text, offsets, windows[0], windows[1].0, windows[|windows| - 1].1, rest);
  }

  lemma {:induction false} WholesAre(text: string, offsets: seq<(int, int)>, windows: seq<Window>)
    requires AreOffsets(offsets, |text|) && FitTogether(windows, |offsets|) && |windows| > 1
             && FitTogether(windows[1..], |offsets|)
    ensures windows[0].0 < windows[1].0 < windows[|windows| - 1].1 <= |offsets|
    ensures Whole(text, offsets, windows) == Decode(text, offsets, windows[0].0, windows[|windows| - 1].1)
    ensures Whole(text, offsets, windows[1..]) == Decode(text, offsets, windows[1].0, windows[|windows| - 1].1)
  {
    Ends(windows, |offsets|);
  }

  lemma {:induction false} JoinTexts(text: string, offsets: seq<(int, int)>, first: Window, next: nat, end: nat,
                                     rest: string)
    requires AreOffsets(offsets, |text|) && first.0 < next <= first.1 < end <= |offsets|
    requires |rest| <= |Decode(text, offsets, next, end)|
    requires |rest| == |Decode(text, offsets, next, end)| ==> rest == Decode(text, offsets, next, end)
    ensures var joined := Joined(text, offsets, first, next, rest);
            var whole := Decode(text, offsets, first.0, end);
            var gap := if next < first.1 then 0 else offsets[next].0 - offsets[first.1 - 1].1;
            && gap >= 0 && |joined| <= |whole|
            && (|rest| == |Decode(text, offsets, next, end)| && gap == 0 ==> joined == whole)
            && (|rest| < |Decode(text, offsets, next, end)| || gap > 0 ==> |joined| < |whole|)
  {
    DecodeOverlap(text, offsets, first.0, next, first.1, end);
    if next == first.1 {
      assert offsets[first.1 - 1].1 <= offsets[next].0;
    }
  }

  lemma {:induction false} StitchRebuildsFrom(text: string, offsets: seq<(int, int)>, windows: seq<Window>)
    requires AreOffsets(offsets, |text|) && FitTogether(windows, |offsets|)
    ensures |Stitch(text, offsets, windows)| <= |Whole(text, offsets, windows)|
    ensures HasNoGap(offsets, windows) ==> Stitch(text, offsets, windows) == Whole(text, offsets, windows)
    ensures !HasNoGap(offsets, windows) ==> |Stitch(text, offsets, windows)| < |Whole(text, offsets, windows)|
    decreases |windows|
  {
    if |windows| > 1 {
      FitRest(windows, |offsets|);
      StitchRebuildsFrom(text, offsets, windows[1..]);
      HasNoGapRest(offsets, windows);
      StitchOne(text, offsets, windows, Stitch(text, offsets, windows[1..]));
    }
  }

  /** Main result on texts: stitching the raw window texts rebuilds the source from the first token to the last exactly
      when windows overlap or no source text lies between them; what is missing otherwise is that text. */
  lemma {:induction false} StitchRebuildsIff(config: Config, text: string, offsets: seq<(int, int)>)
    requires IsConfig(config) && AreOffsets(offsets, |text|) && offsets != []
    ensures FitTogether(Windows(config, |offsets|), |offsets|)
    ensures var windows := Windows(config, |offsets|);
            Stitch(text, offsets, windows) == text[offsets[0].0..offsets[|offsets| - 1].1]
            <==> config.overlap >= 1 || HasNoGap(offsets, windows)
  {
    var windows := Windows(config, |offsets|);
    WindowsAre(config, |offsets|, 0);
    WindowsFit(config, |offsets|);
    StitchRebuildsFrom(text, offsets, windows);
    assert Whole(text, offsets, windows) == text[offsets[0].0..offsets[|offsets| - 1].1];
  }

  /** An input that shows it: without overlap, the space between two windows is lost. */
  lemma {:induction false} WithoutOverlapASpaceIsLost()
    ensures AreOffsets([(0, 1), (2, 3)], 3) && FitTogether(Windows(Config(1, 0), 2), 2)
    ensures Stitch("a b", [(0, 1), (2, 3)], Windows(Config(1, 0), 2)) != "a b"
  {
    var config, offsets := Config(1, 0), [(0, 1), (2, 3)];
    TwoSingleTokens(config);
    WindowsFit(config, 2);
    GapBetween(offsets, Windows(config, 2));
    GapIsLost(config, "a b", offsets);
  }

  lemma {:induction false} GapIsLost(config: Config, text: string, offsets: seq<(int, int)>)
    requires IsConfig(config) && AreOffsets(offsets, |text|) && offsets != [] && config.overlap == 0
    requires offsets[0].0 == 0 && offsets[|offsets| - 1].1 == |text|
    requires FitTogether(Windows(config, |offsets|), |offsets|) && !HasNoGap(offsets, Windows(config, |offsets|))
    ensures Stitch(text, offsets, Windows(config, |offsets|)) != text
  {
    StitchRebuildsIff(config, text, offsets);
    assert text[0..|text|] == text;
  }

  lemma {:induction false} TwoSingleTokens(config: Config)
    requires config == Config(1, 0)
    ensures Windows(config, 2) == [(0, 1), (1, 2)]
  {
    assert WindowsFrom(config, 2, 1) == [(1, 2)];
  }

  lemma {:induction false} GapBetween(offsets: seq<(int, int)>, windows: seq<Window>)
    requires offsets == [(0, 1), (2, 3)] && windows == [(0, 1), (1, 2)] && FitTogether(windows, 2)
    ensures !HasNoGap(offsets, windows)
  {
    assert Gap(offsets, windows, 0) == 1;
  }

  /******* Chunks *******/

  datatype Chunk = Chunk(id: string, documentId: string, position: nat, text: string, tokenCount: nat)

  // A tokenizer's encoding: the number of tokens, and the text of any range of them.
  datatype Encoding = Encoding(count: nat, decode: (nat, nat) -> string)

  function TextOf(encoding: Encoding): Window -> string {
    (window: Window) => Norm.NormalizeText(encoding.decode(window.0, window.1))
  }

  // A window is emitted when its text is neither empty nor that of an earlier window.
  predicate IsEmitted(texts: seq<string>, position: nat)
    requires position < |texts|
  {
    texts[position] != "" && texts[position] !in texts[..position]
  }

  // The positions and texts of the windows before a position that are emitted, in order.
  function Emitted(texts: seq<string>, position: nat): seq<(nat, string)>
    requires position <= |texts|
  {
    if position == 0 then []
    else if IsEmitted(texts, position - 1) then Emitted(texts, position - 1) + [(position - 1, texts[position - 1])]
    else Emitted(texts, position - 1)
  }

  function EmissionOf(chunk: Chunk): (nat, string) {
    (chunk.position, chunk.text)
  }

  // One chunk for each, in order.
  ghost predicate AreEmitted(texts: seq<string>, position: nat, chunks: seq<Chunk>)
    requires position <= |texts|
  {
    Map(EmissionOf, chunks) == Emitted(texts, position)
  }

  ghost predicate IsEmission(texts: seq<string>, position: nat, emission: (nat, string))
    requires position <= |texts|
  {
    emission.0 < position && IsEmitted(texts, emission.0) && emission.1 == texts[emission.0]
  }

  lemma {:induction false} EmittedAt(texts: seq<string>, position: nat, i: nat)
    requires position <= |texts| && i < |Emitted(texts, position)|
    ensures IsEmission(texts, position, Emitted(texts, position)[i])
    decreases position
  {
    if i < |Emitted(texts, position - 1)| {
      EmittedAt(texts, position - 1, i);
    }
  }

  lemma {:induction false} EmittedAscends(texts: seq<string>, position: nat, i: nat, j: nat)
    requires position <= |texts| && i < j < |Emitted(texts, position)|
    ensures Emitted(texts, position)[i].0 < Emitted(texts, position)[j].0
    decreases position
  {
    if j < |Emitted(texts, position - 1)| {
      EmittedAscends(texts, position - 1, i, j);
    } else {
      EmittedAt(texts, position - 1, i);
    }
  }

  lemma {:induction false} EmittedHas(texts: seq<string>, position: nat, k: nat) returns (i: nat)
    requires k < position <= |texts| && IsEmitted(texts, k)
    ensures i < |Emitted(texts, position)| && Emitted(texts, position)[i] == (k, texts[k])
    decreases position
  {
    if k == position - 1 {
      i := |Emitted(texts, position)| - 1;
    } else {
      i := EmittedHas(texts, position - 1, k);
    }
  }

  type HashPrefix = string -> string

  // What else a chunk says about its window.
  ghost predicate IsIdentified(windows: seq<Window>, hash: HashPrefix, documentId: string, chunk: Chunk) {
    && chunk.position < |windows|
    && windows[chunk.position].0 + chunk.tokenCount == windows[chunk.position].1
    && chunk.documentId == documentId
    && Ids.ChunkId(documentId, chunk.position, hash(chunk.text)) == Ok(chunk.id)
  }

  ghost predicate AreIdentified(windows: seq<Window>, hash: HashPrefix, documentId: string, chunks: seq<Chunk>) {
    forall i :: 0 <= i < |chunks| ==> IsIdentified(windows, hash, documentId, chunks[i])
  }

  lemma {:induction false} EmitNext(texts: seq<string>, position: nat, chunks: seq<Chunk>, chunk: Chunk)
    requires position < |texts| && AreEmitted(texts, position, chunks)
    requires chunk.position == position && chunk.text == texts[position] && IsEmitted(texts, position)
    ensures AreEmitted(texts, position + 1, chunks + [chunk])
  {
    assert Map(EmissionOf, chunks + [chunk]) == Map(EmissionOf, chunks) + [(position, texts[position])];
  }

  lemma {:induction false} SkipNext(texts: seq<string>, position: nat, chunks: seq<Chunk>)
    requires position < |texts| && AreEmitted(texts, position, chunks) && !IsEmitted(texts, position)
    ensures AreEmitted(texts, position + 1, chunks)
  {
  }

  // The texts that were seen are those of the windows before.
  ghost predicate HasSeen(texts: seq<string>, position: nat, seen: set<string>)
    requires position <= |texts|
  {
    forall text :: text in seen <==> text != "" && text in texts[..position]
  }

  lemma {:induction false} SeeNext(texts: seq<string>, position: nat, seen: set<string>)
    requires position < |texts| && HasSeen(texts, position, seen)
    ensures HasSeen(texts, position + 1, if texts[position] == "" then seen else seen + {texts[position]})
    ensures IsEmitted(texts, position) <==> texts[position] != "" && texts[position] !in seen
  {
    assert texts[..position + 1] == texts[..position] + [texts[position]];
  }

  // The windows after a start are those of the rest of the loop.
  ghost predicate IsReached(config: Config, count: nat, windows: seq<Window>, position: nat, start: nat)
    requires IsConfig(config)
  {
    position <= |windows| && windows[position..] == WindowsFrom(config, count, start)
  }

  lemma {:induction false} AllReached(config: Config, count: nat, windows: seq<Window>, position: nat, start: nat)
    requires IsConfig(config) && position <= |windows|
    ensures IsReached(config, count, windows, position, start) && start >= count ==> position == |windows|
  {
  }

  lemma {:induction false} NextWindow(config: Config, count: nat, windows: seq<Window>, position: nat, start: nat,
                                      end: nat)
    requires IsConfig(config) && IsReached(config, count, windows, position, start) && start < count
    requires end == if start + config.windowSize <= count then start + config.windowSize else count
    ensures position < |windows| && windows[position] == (start, end) && start < end
    ensures end == count ==> position == |windows| - 1
    ensures end < count ==> IsReached(config, count, windows, position + 1, start + config.windowSize - config.overlap)
  {
    assert windows[position] == windows[position..][0];
    assert windows[position..][1..] == windows[position + 1..];
  }

  /** The loop over the windows emits one chunk for every window with a new, non-empty text, at its own position. */
  method ChunkDocument(config: Config, corpusVersion: string, dataset: string, sourceId: string, text: string,
                       encode: string -> Encoding, hash: HashPrefix) returns (result: Result<seq<Chunk>, ChunkError>)
    requires IsConfig(config)
    ensures result.Ok? <==> Strip(corpusVersion) != ""
                            && (Norm.NormalizeText(text) == "" || Ids.DocumentId(dataset, sourceId).Ok?)
    ensures Strip(corpusVersion) == "" ==> result == Err(BlankVersion)
    ensures result.Err? && Strip(corpusVersion) != "" ==>
              Ids.DocumentId(dataset, sourceId).Err? && result == Err(BadId(Ids.DocumentId(dataset, sourceId).error))
    ensures result.Ok? && Norm.NormalizeText(text) == "" ==> result.value == []
    ensures result.Ok? && Norm.NormalizeText(text) != "" ==>
              var encoding := encode(Norm.NormalizeText(text));
              var windows := Windows(config, encoding.count);
              && AreEmitted(Map(TextOf(encoding), windows), |windows|, result.value)
              && AreIdentified(windows, hash, Ids.DocumentId(dataset, sourceId).value, result.value)
  {
    if Strip(corpusVersion) == "" {
      return Err(BlankVersion);
    }
    var normalized := Norm.NormalizeLines(text);
    if normalized == "" {
      return Ok([]);
    }
    var documentId := Ids.DocumentId(dataset, sourceId);
    if documentId.Err? {
      return Err(BadId(documentId.error));
    }
    Ids.CanonicalDocumentIdIsStripped(dataset, sourceId);
    var encoding := encode(normalized);
    var chunks := ChunkWindows(config, encoding.count, TextOf(encoding), documentId.value, hash);
    result := Ok(chunks);
  }

  // What the loop keeps about the windows before a position.
  ghost predicate IsChunked(windows: seq<Window>, texts: seq<string>, hash: HashPrefix, documentId: string,
                            position: nat, seen: set<string>, chunks: seq<Chunk>) {
    && position <= |texts| == |windows| && HasSeen(texts, position, seen)
    && AreEmitted(texts, position, chunks) && AreIdentified(windows, hash, documentId, chunks)
  }

  // One turn of the loop over the windows.
  method Emit(text: string, start: nat, end: nat, position: nat, documentId: string, hash: HashPrefix,
              seen: set<string>, chunks: seq<Chunk>, ghost windows: seq<Window>,
              ghost texts: seq<string>) returns (seen': set<string>, chunks': seq<Chunk>)
    requires position < |windows| == |texts| && windows[position] == (start, end) && start <= end
    requires texts[position] == text && Ids.StartsWith(documentId, Ids.DOCUMENT_PREFIX)
    requires IsChunked(windows, texts, hash, documentId, position, seen, chunks)
    ensures IsChunked(windows, texts, hash, documentId, position + 1, seen', chunks')
  {
    seen', chunks' := seen, chunks;
    SeeNext(texts, position, seen);
    if text != "" && text !in seen {
      Ids.ChunkIdIsMade(documentId, position, hash(text));
      var chunk := Chunk(Ids.ChunkId(documentId, position, hash(text)).value, documentId, position, text, end - start);
      EmitNext(texts, position, chunks, chunk);
      assert IsIdentified(windows, hash, documentId, chunk);
      seen', chunks' := seen + {text}, chunks + [chunk];
    } else {
      SkipNext(texts, position, chunks);
      assert text != "" ==> seen + {text} == seen;
    }
  }

  // `textOf` is the normalized text of a window.
  method ChunkWindows(config: Config, count: nat, textOf: Window -> string, documentId: string, hash: HashPrefix)
    returns (chunks: seq<Chunk>)
    requires IsConfig(config) && Ids.StartsWith(documentId, Ids.DOCUMENT_PREFIX)
    ensures var windows := Windows(config, count);
            AreEmitted(Map(textOf, windows), |windows|, chunks) && AreIdentified(windows, hash, documentId, chunks)
  {
    ghost var windows := Windows(config, count);
    ghost var texts := Map(textOf, windows);
    chunks := [];
    var seen: set<string> := {};
    var position: nat, start: nat := 0, 0;
    while start < count
      invariant IsReached(config, count, windows, position, start)
      invariant IsChunked(windows, texts, hash, documentId, position, seen, chunks)
      decreases count - start
    {
      var end := if start + config.windowSize <= count then start + config.windowSize else count;
      NextWindow(config, count, windows, position, start, end);
      seen, chunks := Emit(textOf((start, end)), start, end, position, documentId, hash, seen, chunks, windows, texts);
      position := position + 1;
      if end == count {
        break;
      }
      start := start + config.windowSize - config.overlap;
    }
    AllReached(config, count, windows, position, start);
  }

  /** Main result on chunks: their texts are non-empty and distinct, their positions increase, and every non-empty
      window text is among them. */
  lemma {:induction false} ChunksAreDistinct(texts: seq<string>, chunks: seq<Chunk>)
    requires AreEmitted(texts, |texts|, chunks)
    ensures forall i, j :: 0 <= i < j < |chunks| ==> chunks[i].text != chunks[j].text
                                                     && chunks[i].position < chunks[j].position
    ensures forall i :: 0 <= i < |chunks| ==> chunks[i].text != ""
    ensures forall k :: 0 <= k < |texts| && texts[k] != "" ==> HasText(chunks, texts[k])
  {
    var emitted := Map(EmissionOf, chunks);
    forall i, j | 0 <= i < j < |chunks| ensures chunks[i].text != chunks[j].text
        && chunks[i].position < chunks[j].position {
      EmittedAt(texts, |texts|, i);
      EmittedAt(texts, |texts|, j);
      EmittedAscends(texts, |texts|, i, j);
      assert emitted[i] == EmissionOf(chunks[i]) && emitted[j] == EmissionOf(chunks[j]);
      assert chunks[i].text == texts[..chunks[j].position][chunks[i].position];
    }
    forall i | 0 <= i < |chunks| ensures chunks[i].text != "" {
      EmittedAt(texts, |texts|, i);
      assert emitted[i] == EmissionOf(chunks[i]);
    }
    forall k: nat | k < |texts| && texts[k] != "" ensures HasText(chunks, texts[k]) {
      var first := FirstWithText(texts, k);
      var i := EmittedHas(texts, |texts|, first);
      assert emitted[i] == EmissionOf(chunks[i]);
    }
  }

  /** And no two chunks of a document share an ID. */
  lemma {:induction false} ChunkIdsAreDistinct(texts: seq<string>, windows: seq<Window>, hash: HashPrefix,
                                               documentId: string, chunks: seq<Chunk>)
    requires AreEmitted(texts, |texts|, chunks) && AreIdentified(windows, hash, documentId, chunks)
    requires forall text :: Without(':', hash(text))
    ensures forall i, j :: 0 <= i < j < |chunks| ==> chunks[i].id != chunks[j].id
  {
    ChunksAreDistinct(texts, chunks);
    forall i, j | 0 <= i < j < |chunks| ensures chunks[i].id != chunks[j].id {
      assert chunks[i].position < chunks[j].position;
      assert IsIdentified(windows, hash, documentId, chunks[i]) && IsIdentified(windows, hash, documentId, chunks[j]);
      Ids.ChunkIdRoundTrip(documentId, chunks[i].position, hash(chunks[i].text));
      Ids.ChunkIdRoundTrip(documentId, chunks[j].position, hash(chunks[j].text));
    }
  }

  ghost predicate HasText(chunks: seq<Chunk>, text: string) {
    exists i :: 0 <= i < |chunks| && chunks[i].text == text
  }

  lemma {:induction false} FirstWithText(texts: seq<string>, k: nat) returns (first: nat)
    requires k < |texts| && texts[k] != ""
    ensures first <= k && IsEmitted(texts, first) && texts[first] == texts[k]
  {
    first := 0;
    while texts[first] != texts[k]
      invariant first <= k && texts[k] !in texts[..first]
      decreases k - first
    {
      assert texts[..first + 1] == texts[..first] + [texts[first]];
      first := first + 1;
    }
  }
}
