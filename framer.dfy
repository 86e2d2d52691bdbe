/** The receive loop of monitor_aa.py's main: received bytes are appended to
    a retained buffer, every `<U>body</U=hh>` frame in it is handed to
    parse_u_message, and the matched spans are deleted from the buffer. The
    regular expression is `<U>(.*?)</U=[0-9a-fA-F]{2}>` on bytes, searched
    leftmost first and without overlap; `.` is any byte but the newline. */
module Framing {
  import opened Wrappers
  import opened Text
  import opened Envelope

  // ---------------------------------------------------------------------
  // The pattern
  // ---------------------------------------------------------------------

  const Newline: byte := 0x0A

  /** `<U>` */
  const OpenTag: seq<byte> := [0x3C, 0x55, 0x3E]

  /** `</U=` */
  const CloseTag: seq<byte> := [0x3C, 0x2F, 0x55, 0x3D]

  /** `>` */
  const GreaterThan: byte := 0x3E

  /** `[0-9a-fA-F]` */
  predicate IsHexByte(x: byte)
  {
    (0x30 <= x <= 0x39) || (0x41 <= x <= 0x46) || (0x61 <= x <= 0x66)
  }

  /** `</U=[0-9a-fA-F]{2}>` matches at position `c` of `b`. */
  predicate IsClose(b: seq<byte>, c: nat)
  {
    && c + 7 <= |b|
    && b[c] == CloseTag[0] && b[c + 1] == CloseTag[1] && b[c + 2] == CloseTag[2] && b[c + 3] == CloseTag[3]
    && IsHexByte(b[c + 4]) && IsHexByte(b[c + 5]) && b[c + 6] == GreaterThan
  }

  /** A newline lies in `b[e..k]`. */
  predicate NewlineBetween(b: seq<byte>, e: nat, k: nat)
    requires e <= k <= |b|
  {
    exists j :: e <= j < k && b[j] == Newline
  }

  /** The lazy `(.*?)` from `e`: tries the closing tag at each position in
      turn, consuming one more byte (never a newline) when it fails there. */
  function FindClose(b: seq<byte>, e: nat): (r: Option<nat>)
    requires e <= |b|
    ensures r.Some? ==> e <= r.value && r.value + 7 <= |b|
    decreases |b| - e
  {
    if IsClose(b, e) then Some(e)
    else if e < |b| && b[e] != Newline then FindClose(b, e + 1)
    else None
  }

  /** FindClose finds the first position at which the closing tag matches,
      provided no newline comes before it, and fails only when there is none. */
  lemma {:induction false} FindCloseIsLazy(b: seq<byte>, e: nat)
    requires e <= |b|
    ensures var r := FindClose(b, e);
      && (r.Some? ==> e <= r.value && IsClose(b, r.value))
      && (r.Some? ==> forall k :: e <= k < r.value ==> !IsClose(b, k) && b[k] != Newline)
      && (r.None? ==> forall k :: e <= k <= |b| && IsClose(b, k) ==> NewlineBetween(b, e, k))
    decreases |b| - e
  {
    if !IsClose(b, e) && e < |b| && b[e] != Newline {
      FindCloseIsLazy(b, e + 1);
    }
  }

  /** `<U>` starts at position `p` of `b`. */
  predicate OpensAt(b: seq<byte>, p: nat)
  {
    p + 3 <= |b| && b[p] == OpenTag[0] && b[p + 1] == OpenTag[1] && b[p + 2] == OpenTag[2]
  }

  /** The whole pattern tried at position `s`: where its closing tag starts. */
  function MatchAt(b: seq<byte>, s: nat): Option<nat>
    requires s <= |b|
  {
    if s + 3 <= |b| && b[s] == OpenTag[0] && b[s + 1] == OpenTag[1] && b[s + 2] == OpenTag[2]
    then FindClose(b, s + 3)
    else None
  }

  /** A match: the opening tag at `start`, the closing tag at `close`. */
  datatype Span = Span(start: nat, close: nat)

  function End(sp: Span): nat
  {
    sp.close + 7
  }

  predicate IsMatch(b: seq<byte>, sp: Span)
  {
    sp.start + 3 <= sp.close && sp.close + 7 <= |b| && MatchAt(b, sp.start) == Some(sp.close)
  }

  /** No match starts anywhere in `b[lo..hi]`. */
  predicate NoMatchIn(b: seq<byte>, lo: nat, hi: nat)
    requires hi <= |b|
  {
    forall p :: lo <= p < hi ==> MatchAt(b, p).None?
  }

  /** Matches in `b` from `from` on, each after the one before. */
  predicate Ordered(b: seq<byte>, from: nat, spans: seq<Span>)
  {
    && (forall k :: 0 <= k < |spans| ==> IsMatch(b, spans[k]))
    && (spans != [] ==> from <= spans[0].start)
    && (forall k :: 0 <= k < |spans| - 1 ==> End(spans[k]) <= spans[k + 1].start)
  }

  /** The search of `re.findall` / `re.sub` from position `s`. */
  function Spans(b: seq<byte>, s: nat): (spans: seq<Span>)
    requires s <= |b|
    decreases |b| - s
  {
    if s == |b| then []
    else
      match MatchAt(b, s)
      case Some(c) => [Span(s, c)] + Spans(b, c + 7)
      case None => Spans(b, s + 1)
  }

  lemma OrderedFound(b: seq<byte>, s: nat, c: nat, rest: seq<Span>)
    requires s <= |b| && MatchAt(b, s) == Some(c) && Ordered(b, c + 7, rest)
    ensures Ordered(b, s, [Span(s, c)] + rest)
  {
    assert forall k :: 1 <= k < |rest| + 1 ==> ([Span(s, c)] + rest)[k] == rest[k - 1];
  }

  /** The matches the search finds lie in order, without overlap. */
  lemma {:induction false} SpansAreOrdered(b: seq<byte>, s: nat)
    requires s <= |b|
    ensures Ordered(b, s, Spans(b, s))
    decreases |b| - s
  {
    if s < |b| {
      match MatchAt(b, s)
      case Some(c) =>
        SpansAreOrdered(b, c + 7);
        assert Spans(b, s) == [Span(s, c)] + Spans(b, c + 7);
        OrderedFound(b, s, c, Spans(b, c + 7));
      case None =>
        SpansAreOrdered(b, s + 1);
        assert Spans(b, s) == Spans(b, s + 1);
    }
  }

  /** Each span is the leftmost match at or after `s` (for the first) or the
      end of the span before it, and no match starts after the last one. */
  predicate Leftmost(b: seq<byte>, s: nat, spans: seq<Span>)
    decreases |spans|
  {
    if spans == [] then NoMatchIn(b, s, |b|)
    else spans[0].start <= |b| && NoMatchIn(b, s, spans[0].start) && Leftmost(b, End(spans[0]), spans[1..])
  }

  lemma LeftmostFound(b: seq<byte>, s: nat, c: nat, rest: seq<Span>)
    requires s <= |b| && Leftmost(b, c + 7, rest)
    ensures Leftmost(b, s, [Span(s, c)] + rest)
  {
    assert ([Span(s, c)] + rest)[1..] == rest;
  }

  lemma LeftmostMissed(b: seq<byte>, s: nat, spans: seq<Span>)
    requires s < |b| && MatchAt(b, s).None? && Ordered(b, s + 1, spans) && Leftmost(b, s + 1, spans)
    ensures Leftmost(b, s, spans)
  {
  }

  /** The search finds each match as the leftmost one at or after the end
      of the match before, and misses none after the last. */
  lemma {:induction false} SpansAreLeftmost(b: seq<byte>, s: nat)
    requires s <= |b|
    ensures Leftmost(b, s, Spans(b, s))
    decreases |b| - s
  {
    if s < |b| {
      match MatchAt(b, s)
      case Some(c) =>
        SpansAreLeftmost(b, c + 7);
        assert Spans(b, s) == [Span(s, c)] + Spans(b, c + 7);
        LeftmostFound(b, s, c, Spans(b, c + 7));
      case None =>
        SpansAreLeftmost(b, s + 1);
        SpansAreOrdered(b, s + 1);
        assert Spans(b, s) == Spans(b, s + 1);
        LeftmostMissed(b, s, Spans(b, s + 1));
    }
  }

  /** The bytes between the tags of a match. */
  function Body(b: seq<byte>, sp: Span): seq<byte>
    requires IsMatch(b, sp)
  {
    b[sp.start + 3..sp.close]
  }

  /** What `re.findall` returns: the body of each match, in order. */
  function Frames(b: seq<byte>): (frames: seq<seq<byte>>)
  {
    var spans := Spans(b, 0);
    SpansAreOrdered(b, 0);
    seq(|spans|, k requires 0 <= k < |spans| => Body(b, spans[k]))
  }

  lemma OrderedTail(b: seq<byte>, from: nat, spans: seq<Span>)
    requires spans != [] && Ordered(b, from, spans)
    ensures Ordered(b, End(spans[0]), spans[1..])
  {
    assert forall k :: 0 <= k < |spans| - 1 ==> spans[1..][k] == spans[k + 1];
  }

  /** `b[from..]` with the spans cut out. */
  function Cut(b: seq<byte>, from: nat, spans: seq<Span>): seq<byte>
    requires from <= |b| && Ordered(b, from, spans)
    decreases |spans|
  {
    if spans == [] then b[from..]
    else
      OrderedTail(b, from, spans);
      b[from..spans[0].start] + Cut(b, End(spans[0]), spans[1..])
  }

  /** What `re.sub(pattern, b'', b)` returns. */
  function Remainder(b: seq<byte>): seq<byte>
  {
    SpansAreOrdered(b, 0);
    Cut(b, 0, Spans(b, 0))
  }

  // ---------------------------------------------------------------------
  // Properties of the pattern
  // ---------------------------------------------------------------------

  /** A body never holds a newline, and the closing tag after it is the
      first one that follows the opening tag. */
  lemma BodiesAreShortest(b: seq<byte>, sp: Span)
    requires IsMatch(b, sp)
    ensures Newline !in Body(b, sp)
    ensures forall k :: sp.start + 3 <= k < sp.close ==> !IsClose(b, k)
    ensures b[sp.start..sp.start + 3] == OpenTag && IsClose(b, sp.close)
  {
    FindCloseIsLazy(b, sp.start + 3);
    var body := Body(b, sp);
    assert forall i :: 0 <= i < |body| ==> body[i] == b[sp.start + 3 + i];
  }

  /** The frame a match spans, written out again. */
  function Wrap(body: seq<byte>, hi: byte, lo: byte): seq<byte>
  {
    OpenTag + body + CloseTag + [hi, lo, GreaterThan]
  }

  /** Cutting out the spans loses nothing else: the gaps left behind and the
      frames taken out, laid end to end, are the buffer again. */
  function Rebuilt(b: seq<byte>, from: nat, spans: seq<Span>): seq<byte>
    requires from <= |b| && Ordered(b, from, spans)
    decreases |spans|
  {
    if spans == [] then b[from..]
    else
      var sp := spans[0];
      OrderedTail(b, from, spans);
      b[from..sp.start] + Wrap(Body(b, sp), b[sp.close + 4], b[sp.close + 5]) + Rebuilt(b, End(sp), spans[1..])
  }

  /** A match opens with `<U>` and ends with a closing tag. */
  lemma MatchHasTags(b: seq<byte>, sp: Span)
    requires IsMatch(b, sp)
    ensures OpensAt(b, sp.start) && IsClose(b, sp.close)
  {
    FindCloseIsLazy(b, sp.start + 3);
  }

  /** Bytes that open with `<U>` at `s` and close at `c` are the wrapped body. */
  lemma WrappedParts(b: seq<byte>, s: nat, c: nat)
    requires s + 3 <= c && OpensAt(b, s) && IsClose(b, c)
    ensures b[s..c + 7] == Wrap(b[s + 3..c], b[c + 4], b[c + 5])
  {
    assert b[s..s + 3] == OpenTag;
    assert b[c..c + 4] == CloseTag;
    assert b[c + 4..c + 7] == [b[c + 4], b[c + 5], GreaterThan];
    assert b[s..c + 7] == b[s..s + 3] + b[s + 3..c] + b[c..c + 4] + b[c + 4..c + 7];
  }

  /** The bytes of a match are its frame written out again. */
  lemma MatchIsWrapped(b: seq<byte>, sp: Span)
    requires IsMatch(b, sp)
    ensures b[sp.start..End(sp)] == Wrap(Body(b, sp), b[sp.close + 4], b[sp.close + 5])
  {
    MatchHasTags(b, sp);
    WrappedParts(b, sp.start, sp.close);
  }

  lemma JoinPieces(b: seq<byte>, from: nat, start: nat, end: nat, gap: seq<byte>, wrapped: seq<byte>, rest: seq<byte>)
    requires from <= start <= end <= |b|
    requires gap == b[from..start] && wrapped == b[start..end] && rest == b[end..]
    ensures gap + wrapped + rest == b[from..]
  {
    assert b[from..] == b[from..start] + b[start..end] + b[end..];
  }

  lemma {:induction false} RebuiltIsBuffer(b: seq<byte>, from: nat, spans: seq<Span>)
    requires from <= |b| && Ordered(b, from, spans)
    ensures Rebuilt(b, from, spans) == b[from..]
    decreases |spans|
  {
    if spans != [] {
      var sp := spans[0];
      OrderedTail(b, from, spans);
      var wrapped := Wrap(Body(b, sp), b[sp.close + 4], b[sp.close + 5]);
      var rest := Rebuilt(b, End(sp), spans[1..]);
      RebuiltIsBuffer(b, End(sp), spans[1..]);
      MatchIsWrapped(b, sp);
      JoinPieces(b, from, sp.start, End(sp), b[from..sp.start], wrapped, rest);
    }
  }

  /** The gaps `re.sub` keeps: the bytes before each span, then the bytes
      after the last one. */
  function GapsFrom(b: seq<byte>, from: nat, spans: seq<Span>): seq<seq<byte>>
    requires from <= |b| && Ordered(b, from, spans)
    decreases |spans|
  {
    if spans == [] then [b[from..]]
    else
      OrderedTail(b, from, spans);
      [b[from..spans[0].start]] + GapsFrom(b, End(spans[0]), spans[1..])
  }

  /** The bodies of the spans, in order. */
  function BodiesOf(b: seq<byte>, spans: seq<Span>): seq<seq<byte>>
    requires forall k :: 0 <= k < |spans| ==> IsMatch(b, spans[k])
  {
    seq(|spans|, k requires 0 <= k < |spans| => Body(b, spans[k]))
  }

  /** The two hex digits of each span's closing tag, which `re.findall` drops. */
  function TagsOf(b: seq<byte>, spans: seq<Span>): seq<(byte, byte)>
    requires forall k :: 0 <= k < |spans| ==> IsMatch(b, spans[k])
  {
    seq(|spans|, k requires 0 <= k < |spans| && IsMatch(b, spans[k]) => (b[spans[k].close + 4], b[spans[k].close + 5]))
  }

  function NoiseGaps(b: seq<byte>): seq<seq<byte>>
  {
    SpansAreOrdered(b, 0);
    GapsFrom(b, 0, Spans(b, 0))
  }

  function Tags(b: seq<byte>): seq<(byte, byte)>
  {
    SpansAreOrdered(b, 0);
    TagsOf(b, Spans(b, 0))
  }

  /** The pieces laid end to end. */
  function Flatten(pieces: seq<seq<byte>>): seq<byte>
  {
    if pieces == [] then [] else pieces[0] + Flatten(pieces[1..])
  }

  /** `g0 + <U>f0</U=t0> + g1 + ... + gn`: the gaps with each frame wrapped
      in its tags between them. */
  function Weave(gaps: seq<seq<byte>>, frames: seq<seq<byte>>, tags: seq<(byte, byte)>): seq<byte>
    requires |gaps| == |frames| + 1 && |tags| == |frames|
    decreases |frames|
  {
    if frames == [] then gaps[0]
    else gaps[0] + Wrap(frames[0], tags[0].0, tags[0].1) + Weave(gaps[1..], frames[1..], tags[1..])
  }

  lemma GapsFromLength(b: seq<byte>, from: nat, spans: seq<Span>)
    requires from <= |b| && Ordered(b, from, spans)
    ensures |GapsFrom(b, from, spans)| == |spans| + 1
    decreases |spans|
  {
    if spans != [] {
      OrderedTail(b, from, spans);
      GapsFromLength(b, End(spans[0]), spans[1..]);
    }
  }

  /** The first span gives the first body and the first tag pair; dropping it
      drops them. */
  lemma BodiesTagsTail(b: seq<byte>, spans: seq<Span>)
    requires spans != [] && forall k :: 0 <= k < |spans| ==> IsMatch(b, spans[k])
    ensures BodiesOf(b, spans) != [] && BodiesOf(b, spans)[0] == Body(b, spans[0])
    ensures TagsOf(b, spans) != [] && TagsOf(b, spans)[0] == (b[spans[0].close + 4], b[spans[0].close + 5])
    ensures BodiesOf(b, spans)[1..] == BodiesOf(b, spans[1..])
    ensures TagsOf(b, spans)[1..] == TagsOf(b, spans[1..])
  {
    assert forall k :: 0 <= k < |spans| - 1 ==> spans[1..][k] == spans[k + 1];
  }

  lemma GapsFromUnfold(b: seq<byte>, from: nat, spans: seq<Span>)
    requires from <= |b| && Ordered(b, from, spans) && spans != []
    ensures (OrderedTail(b, from, spans);
      GapsFrom(b, from, spans) == [b[from..spans[0].start]] + GapsFrom(b, End(spans[0]), spans[1..]))
  {
    OrderedTail(b, from, spans);
  }

  lemma RebuiltUnfold(b: seq<byte>, from: nat, spans: seq<Span>)
    requires from <= |b| && Ordered(b, from, spans) && spans != []
    ensures (OrderedTail(b, from, spans);
      Rebuilt(b, from, spans) == b[from..spans[0].start]
        + Wrap(Body(b, spans[0]), b[spans[0].close + 4], b[spans[0].close + 5])
        + Rebuilt(b, End(spans[0]), spans[1..]))
  {
    OrderedTail(b, from, spans);
  }

  /** The remainder is the gaps laid end to end. */
  lemma {:induction false} CutIsGaps(b: seq<byte>, from: nat, spans: seq<Span>)
    requires from <= |b| && Ordered(b, from, spans)
    ensures Flatten(GapsFrom(b, from, spans)) == Cut(b, from, spans)
    decreases |spans|
  {
    if spans != [] {
      OrderedTail(b, from, spans);
      CutIsGaps(b, End(spans[0]), spans[1..]);
      var g := GapsFrom(b, from, spans);
      assert g[0] == b[from..spans[0].start] && g[1..] == GapsFrom(b, End(spans[0]), spans[1..]);
    }
  }

  lemma WeaveStep(gap: seq<byte>, body: seq<byte>, tag: (byte, byte), gaps: seq<seq<byte>>,
                  frames: seq<seq<byte>>, tags: seq<(byte, byte)>, g: seq<seq<byte>>,
                  f: seq<seq<byte>>, t: seq<(byte, byte)>)
    requires |gaps| == |frames| + 1 && |tags| == |frames|
    requires g == [gap] + gaps && f != [] && f[0] == body && f[1..] == frames
    requires t != [] && t[0] == tag && t[1..] == tags
    ensures |g| == |f| + 1 && |t| == |f|
    ensures Weave(g, f, t) == gap + Wrap(body, tag.0, tag.1) + Weave(gaps, frames, tags)
  {
    assert g[0] == gap && g[1..] == gaps;
  }

  /** Weaving the gaps, bodies and tags of the spans writes the same bytes as
      putting each wrapped span back between its gaps. */
  lemma {:induction false} WeaveIsRebuilt(b: seq<byte>, from: nat, spans: seq<Span>)
    requires from <= |b| && Ordered(b, from, spans)
    ensures |GapsFrom(b, from, spans)| == |spans| + 1
    ensures Weave(GapsFrom(b, from, spans), BodiesOf(b, spans), TagsOf(b, spans)) == Rebuilt(b, from, spans)
    decreases |spans|
  {
    GapsFromLength(b, from, spans);
    if spans != [] {
      var sp, rest := spans[0], spans[1..];
      OrderedTail(b, from, spans);
      GapsFromLength(b, End(sp), rest);
      WeaveIsRebuilt(b, End(sp), rest);
      BodiesTagsTail(b, spans);
      GapsFromUnfold(b, from, spans);
      RebuiltUnfold(b, from, spans);
      var gap, body, tag := b[from..sp.start], Body(b, sp), (b[sp.close + 4], b[sp.close + 5]);
      var gaps, frames, tags := GapsFrom(b, End(sp), rest), BodiesOf(b, rest), TagsOf(b, rest);
      var g, f, t := GapsFrom(b, from, spans), BodiesOf(b, spans), TagsOf(b, spans);
      WeaveStep(gap, body, tag, gaps, frames, tags, g, f, t);
    }
  }

  /** The buffer is its remainder with the frames put back in place: the
      `re.sub` remainder is the gaps laid end to end, and the gaps with the
      `re.findall` frames, each wrapped in its tags, between them are the
      buffer. */
  lemma FramesAndRemainderRebuild(b: seq<byte>)
    ensures |NoiseGaps(b)| == |Frames(b)| + 1 && |Tags(b)| == |Frames(b)|
    ensures Flatten(NoiseGaps(b)) == Remainder(b)
    ensures Weave(NoiseGaps(b), Frames(b), Tags(b)) == b
  {
    SpansAreOrdered(b, 0);
    var spans := Spans(b, 0);
    assert Frames(b) == BodiesOf(b, spans);
    WeaveIsRebuilt(b, 0, spans);
    RebuiltIsBuffer(b, 0, spans);
    CutIsGaps(b, 0, spans);
  }

  /** No opening tag starts in `b[s..t]`. */
  predicate NoOpenIn(b: seq<byte>, s: nat, t: nat)
    decreases t - s
  {
    s >= t || (!OpensAt(b, s) && NoOpenIn(b, s + 1, t))
  }

  /** The search passes over bytes where no opening tag starts. */
  lemma {:induction false} SkipNoOpen(b: seq<byte>, s: nat, t: nat)
    requires s <= t <= |b| && NoOpenIn(b, s, t)
    ensures Spans(b, s) == Spans(b, t)
    decreases t - s
  {
    if s < t {
      assert MatchAt(b, s).None?;
      SkipNoOpen(b, s + 1, t);
    }
  }

  // ---------------------------------------------------------------------
  // Examples
  // ---------------------------------------------------------------------

  /** `ab<U>x</U=00>cd<U>y` */
  const Noisy: seq<byte> := [0x61, 0x62, 0x3C, 0x55, 0x3E, 0x78, 0x3C, 0x2F, 0x55, 0x3D, 0x30, 0x30, 0x3E,
                             0x63, 0x64, 0x3C, 0x55, 0x3E, 0x79]

  lemma NoisySpans()
    ensures Spans(Noisy, 0) == [Span(2, 6)]
  {
    var b := Noisy;
    assert MatchAt(b, 2) == Some(6) by {
      assert IsClose(b, 6);
      assert FindClose(b, 5) == Some(6);
    }
    assert NoOpenIn(b, 0, 2);
    SkipNoOpen(b, 0, 2);
    assert NoOpenIn(b, 13, 15);
    SkipNoOpen(b, 13, 15);
    assert FindClose(b, 18) == None;
    assert MatchAt(b, 15) == None;
    assert NoOpenIn(b, 16, 19);
    SkipNoOpen(b, 16, 19);
  }

  /** The bytes around a frame stay in the buffer, joined, and so does an
      unfinished frame: `ab<U>x</U=00>cd<U>y` yields the frame `x` and keeps
      `abcd<U>y`. */
  lemma NoiseIsKept()
    ensures Frames(Noisy) == [[0x78]]
    ensures Remainder(Noisy) == [0x61, 0x62, 0x63, 0x64, 0x3C, 0x55, 0x3E, 0x79]
  {
    var b := Noisy;
    NoisySpans();
    SpansAreOrdered(b, 0);
    assert Body(b, Span(2, 6)) == [0x78];
    assert Cut(b, 13, []) == b[13..];
    assert Cut(b, 0, [Span(2, 6)]) == b[..2] + b[13..];
  }

  /** `<U>a` newline `</U=00>` */
  const BrokenByNewline: seq<byte> := [0x3C, 0x55, 0x3E, 0x61, 0x0A, 0x3C, 0x2F, 0x55, 0x3D, 0x30, 0x30, 0x3E]

  /** `.` does not match a newline, so a body holding one is not a frame
      and nothing is removed. */
  lemma NewlineBlocksFrame()
    ensures Frames(BrokenByNewline) == []
    ensures Remainder(BrokenByNewline) == BrokenByNewline
  {
    var b := BrokenByNewline;
    assert FindClose(b, 3) == None by {
      assert !IsClose(b, 3) && !IsClose(b, 4);
    }
    assert MatchAt(b, 0) == None;
    assert NoOpenIn(b, 1, 12);
    SkipNoOpen(b, 1, 12);
    assert Spans(b, 0) == [];
    assert b[0..] == b;
  }

  /** `<U<U>x</U=00>`: a frame after a stray `<U`. */
  const FirstChunk: seq<byte> := [0x3C, 0x55, 0x3C, 0x55, 0x3E, 0x78, 0x3C, 0x2F, 0x55, 0x3D, 0x30, 0x30, 0x3E]

  /** `>a</U=11>`: read next, it completes `<U>a</U=11>` with the stray `<U`. */
  const SecondChunk: seq<byte> := [0x3E, 0x61, 0x3C, 0x2F, 0x55, 0x3D, 0x31, 0x31, 0x3E]

  lemma FirstChunkSpans()
    ensures Spans(FirstChunk, 0) == [Span(2, 6)]
  {
    var a := FirstChunk;
    assert IsClose(a, 6);
    assert FindClose(a, 5) == Some(6);
    assert MatchAt(a, 2) == Some(6);
    assert NoOpenIn(a, 0, 2);
    SkipNoOpen(a, 0, 2);
    assert Spans(a, 13) == [];
  }

  lemma BothChunksSpans()
    ensures Spans(FirstChunk + SecondChunk, 0) == [Span(2, 6)]
  {
    var w := FirstChunk + SecondChunk;
    assert IsClose(w, 6);
    assert FindClose(w, 5) == Some(6);
    assert MatchAt(w, 2) == Some(6);
    assert NoOpenIn(w, 0, 2);
    SkipNoOpen(w, 0, 2);
    assert NoOpenIn(w, 13, 22);
    SkipNoOpen(w, 13, 22);
  }

  lemma JoinedChunkSpans()
    ensures Spans([0x3C, 0x55] + SecondChunk, 0) == [Span(0, 4)]
  {
    var r := [0x3C, 0x55] + SecondChunk;
    assert IsClose(r, 4);
    assert FindClose(r, 3) == Some(4);
    assert MatchAt(r, 0) == Some(4);
    assert Spans(r, 11) == [];
  }

  /** How the bytes are split into reads changes what is extracted when:
      read at once, `<U<U>x</U=00>>a</U=11>` yields only `x` and keeps
      `<U>a</U=11>`, a whole frame, in the buffer; read as `<U<U>x</U=00>`
      then `>a</U=11>`, it yields `x` and then `a`, and empties the buffer. */
  lemma ChunkingChangesFrames()
    ensures Frames(FirstChunk + SecondChunk) == [[0x78]]
    ensures Remainder(FirstChunk + SecondChunk) == [0x3C, 0x55] + SecondChunk
    ensures Frames([0x3C, 0x55] + SecondChunk) == [[0x61]]
    ensures Frames(FirstChunk) == [[0x78]] && Remainder(FirstChunk) == [0x3C, 0x55]
    ensures Frames(Remainder(FirstChunk) + SecondChunk) == [[0x61]]
    ensures Remainder(Remainder(FirstChunk) + SecondChunk) == []
  {
    var a, w, r := FirstChunk, FirstChunk + SecondChunk, [0x3C, 0x55] + SecondChunk;
    FirstChunkSpans();
    BothChunksSpans();
    JoinedChunkSpans();
    SpansAreOrdered(a, 0);
    SpansAreOrdered(w, 0);
    SpansAreOrdered(r, 0);
    assert Body(a, Span(2, 6)) == [0x78] && Body(w, Span(2, 6)) == [0x78] && Body(r, Span(0, 4)) == [0x61];
    assert Cut(a, 0, [Span(2, 6)]) == a[..2] + a[13..];
    assert Cut(w, 0, [Span(2, 6)]) == w[..2] + w[13..];
    assert Cut(r, 0, [Span(0, 4)]) == r[..0] + r[11..];
  }

  // ---------------------------------------------------------------------
  // UTF-8 with errors='ignore'
  // ---------------------------------------------------------------------

  predicate IsContinuation(x: byte)
  {
    0x80 <= x <= 0xBF
  }

  /** `bytes.decode('utf-8', errors='ignore')`: well-formed sequences become
      their character; each maximal ill-formed part is dropped. */
  function Utf8Ignore(b: seq<byte>): (s: string)
    ensures |s| <= |b|
    decreases |b|
  {
    if b == [] then []
    else
      var x := b[0];
      if x < 0x80 then [x as char] + Utf8Ignore(b[1..])
      else if 0xC2 <= x <= 0xDF then
        if |b| >= 2 && IsContinuation(b[1]) then
          [((x as int - 0xC0) * 0x40 + (b[1] as int - 0x80)) as char] + Utf8Ignore(b[2..])
        else Utf8Ignore(b[1..])
      else if 0xE0 <= x <= 0xEF then
        var lo := if x == 0xE0 then 0xA0 else 0x80;
        var hi := if x == 0xED then 0x9F else 0xBF;
        if |b| >= 2 && lo <= b[1] <= hi then
          if |b| >= 3 && IsContinuation(b[2]) then
            [((x as int - 0xE0) * 0x1000 + (b[1] as int - 0x80) * 0x40 + (b[2] as int - 0x80)) as char] + Utf8Ignore(b[3..])
          else Utf8Ignore(b[2..])
        else Utf8Ignore(b[1..])
      else if 0xF0 <= x <= 0xF4 then
        var lo := if x == 0xF0 then 0x90 else 0x80;
        var hi := if x == 0xF4 then 0x8F else 0xBF;
        if |b| >= 2 && lo <= b[1] <= hi then
          if |b| >= 3 && IsContinuation(b[2]) then
            if |b| >= 4 && IsContinuation(b[3]) then
              [((x as int - 0xF0) * 0x40000 + (b[1] as int - 0x80) * 0x1000 + (b[2] as int - 0x80) * 0x40
                + (b[3] as int - 0x80)) as char]
                + Utf8Ignore(b[4..])
            else Utf8Ignore(b[3..])
          else Utf8Ignore(b[2..])
        else Utf8Ignore(b[1..])
      else Utf8Ignore(b[1..])
  }

  /** ASCII bytes decode to the characters with the same codes. */
  lemma {:induction false} AsciiDecodes(b: seq<byte>)
    requires forall i :: 0 <= i < |b| ==> b[i] < 0x80
    ensures |Utf8Ignore(b)| == |b|
    ensures forall i :: 0 <= i < |b| ==> Utf8Ignore(b)[i] as int == b[i]
  {
    if b != [] {
      AsciiDecodes(b[1..]);
      var s := Utf8Ignore(b);
      assert s == [b[0] as char] + Utf8Ignore(b[1..]);
      assert forall i :: 1 <= i < |b| ==> s[i] == Utf8Ignore(b[1..])[i - 1] && b[i] == b[1..][i - 1];
    }
  }

  // ---------------------------------------------------------------------
  // The receive loop
  // ---------------------------------------------------------------------

  /** parse_u_message on the text of one frame. */
  function FrameOutcome(frame: seq<byte>): Outcome
  {
    UMessage(Utf8Ignore(frame))
  }

  /** `step` applied to each item. */
  function MapOutcomes<T>(step: T -> Outcome, items: seq<T>): (outcomes: seq<Outcome>)
    ensures |outcomes| == |items|
    ensures forall k :: 0 <= k < |items| ==> outcomes[k] == step(items[k])
  {
    seq(|items|, k requires 0 <= k < |items| => step(items[k]))
  }

  /** The outcomes up to and including the first raised error. */
  function UntilRaised(outcomes: seq<Outcome>): (r: seq<Outcome>)
    ensures |r| <= |outcomes|
  {
    if outcomes == [] then []
    else if outcomes[0].Raised? then [outcomes[0]]
    else [outcomes[0]] + UntilRaised(outcomes[1..])
  }

  /** parse_u_message on each frame in turn, until one raises. */
  function ParseAll(frames: seq<seq<byte>>): seq<Outcome>
  {
    UntilRaised(MapOutcomes(FrameOutcome, frames))
  }

  /** Outcomes before the first error are kept as they are. */
  lemma {:induction false} UntilRaisedSkips(outcomes: seq<Outcome>, i: nat)
    requires i <= |outcomes|
    requires forall k :: 0 <= k < i ==> !outcomes[k].Raised?
    ensures UntilRaised(outcomes) == outcomes[..i] + UntilRaised(outcomes[i..])
  {
    if i > 0 {
      assert outcomes[1..][..i - 1] == outcomes[1..i] && outcomes[1..][i - 1..] == outcomes[i..];
      UntilRaisedSkips(outcomes[1..], i - 1);
      assert outcomes[..i] == [outcomes[0]] + outcomes[1..i];
    }
  }

  /** Without an error every outcome is kept; otherwise the outcomes up to
      the first error are kept, and none after it. */
  lemma UntilRaisedStops(outcomes: seq<Outcome>, i: nat)
    requires i <= |outcomes|
    requires forall k :: 0 <= k < i ==> !outcomes[k].Raised?
    ensures i == |outcomes| ==> UntilRaised(outcomes) == outcomes
    ensures i < |outcomes| && outcomes[i].Raised? ==> UntilRaised(outcomes) == outcomes[..i + 1]
  {
    UntilRaisedSkips(outcomes, i);
    if i == |outcomes| {
      assert outcomes[..i] == outcomes;
    } else if outcomes[i].Raised? {
      assert outcomes[i..][0] == outcomes[i];
      assert outcomes[..i + 1] == outcomes[..i] + [outcomes[i]];
    }
  }

  /** The `for message in u_messages` loop, with `step` the call made on
      each message: the loop ends early at the first ValueError. */
  method ParseEach<T>(step: T -> Outcome, items: seq<T>) returns (outcomes: seq<Outcome>)
    ensures outcomes == UntilRaised(MapOutcomes(step, items))
  {
    ghost var all := MapOutcomes(step, items);
    outcomes := [];
    var i := 0;
    while i < |items|
      invariant 0 <= i <= |items|
      invariant outcomes == all[..i]
      invariant forall k :: 0 <= k < i ==> !all[k].Raised?
    {
      var outcome := step(items[i]);
      if outcome.Raised? {
        UntilRaisedStops(all, i);
        assert all[..i + 1] == outcomes + [outcome];
        return outcomes + [outcome];
      }
      assert all[..i + 1] == outcomes + [outcome];
      outcomes := outcomes + [outcome];
      i := i + 1;
    }
    UntilRaisedStops(all, i);
  }

  /** Some frame raised an error. */
  predicate Raises(outcomes: seq<Outcome>)
  {
    exists k :: 0 <= k < |outcomes| && outcomes[k].Raised?
  }

  /** The state main keeps between reads of the socket. */
  class Framer {
    /** The bytes received and not yet matched. */
    var buffer: seq<byte>
    /** False once the loop has ended: the peer closed the connection, or a
        decoder raised ValueError. */
    var running: bool

    constructor()
      ensures buffer == [] && running
    {
      buffer := [];
      running := true;
    }

    /** One pass of the `while True` loop with the bytes `data` read. */
    method Feed(data: seq<byte>) returns (frames: seq<seq<byte>>, outcomes: seq<Outcome>)
      requires running
      modifies this
      ensures data == [] ==> frames == [] && outcomes == [] && buffer == old(buffer) && !running
      ensures data != [] ==>
        var whole := old(buffer) + data;
        && frames == Frames(whole)
        && outcomes == ParseAll(frames)
        && (running <==> !Raises(outcomes))
        && buffer == if running then Remainder(whole) else whole
    {
      if data == [] {
        running := false;
        return [], [];
      }
      buffer := buffer + data;
      frames := Frames(buffer);
      outcomes := ParseEach(FrameOutcome, frames);
      if Raises(outcomes) {
        // the ValueError leaves the loop before the buffer is cleaned
        running := false;
      } else {
        buffer := Remainder(buffer);
      }
    }
  }
}
