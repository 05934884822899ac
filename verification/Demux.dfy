/** The log demultiplexer. Without a TTY, Docker prefixes every chunk of a container's
    output with an eight-byte header: one byte naming the stream (0, 1 or 2), three bytes
    nobody reads, and the length of the chunk in four bytes, most significant first.

    What the loop must find is given here without a loop: the raw bytes are some frames one
    after the other, followed by bytes that do not begin with a whole frame. There is exactly
    one way to cut the bytes like that, and the method finds it. Turning bytes into text is a
    parameter, applied chunk by chunk as the program does. */
module Demux {
  type byte = b: int | 0 <= b < 256
  type Bytes = seq<byte>

  datatype Frame = Frame(stream: byte, unread: Bytes, body: Bytes)

  const LENGTH_LIMIT: int := 0x1_0000_0000

  predicate Proper(f: Frame) {
    f.stream <= 2 && |f.unread| == 3 && |f.body| < LENGTH_LIMIT
  }

  function FromBigEndian(b: Bytes): (n: nat)
    requires |b| == 4
    ensures n < LENGTH_LIMIT
    ensures n == b[0] as int * 16_777_216 + b[1] as int * 65_536 + b[2] as int * 256 + b[3] as int
  {
    ((b[0] as int * 256 + b[1] as int) * 256 + b[2] as int) * 256 + b[3] as int
  }

  function BigEndian(n: nat): (b: Bytes)
    requires n < LENGTH_LIMIT
    ensures |b| == 4 && FromBigEndian(b) == n
  {
    var low := n % 256;
    var high := n / 256;
    var top := high / 256;
    [top / 256, top % 256, high % 256, low]
  }

  /** Four bytes are the big-endian form of one number only. */
  lemma BigEndianIsOnlyForm(b: Bytes)
    requires |b| == 4
    ensures BigEndian(FromBigEndian(b)) == b
  {
    var n := FromBigEndian(b);
    var top: int := b[0] as int * 256 + b[1] as int;
    var high: int := top * 256 + b[2] as int;
    assert n / 256 == high && n % 256 == b[3];
    assert high / 256 == top && high % 256 == b[2];
  }

  function Encode(f: Frame): (r: Bytes)
    requires Proper(f)
    ensures |r| == 8 + |f.body|
  {
    [f.stream] + f.unread + BigEndian(|f.body|) + f.body
  }

  function EncodeAll(fs: seq<Frame>): (r: Bytes)
    requires forall k :: 0 <= k < |fs| ==> Proper(fs[k])
    ensures fs == [] ==> r == []
  {
    if fs == [] then [] else Encode(fs[0]) + EncodeAll(fs[1..])
  }

  ghost predicate BeginsWith(raw: Bytes, f: Frame) {
    Proper(f) && Encode(f) <= raw
  }

  /** The only frame that `raw` could begin with, when the header has arrived. */
  function Leading(raw: Bytes): Frame
    requires 8 <= |raw| && 8 + FromBigEndian(raw[4..8]) <= |raw|
  {
    Frame(raw[0], raw[1..4], raw[8..8 + FromBigEndian(raw[4..8])])
  }

  predicate Whole(raw: Bytes) {
    8 <= |raw| && raw[0] <= 2 && 8 + FromBigEndian(raw[4..8]) <= |raw|
  }

  /** The loop's three tests say exactly whether the bytes begin with a whole frame. */
  lemma WholeIff(raw: Bytes, f: Frame)
    ensures BeginsWith(raw, f) <==> Whole(raw) && f == Leading(raw)
  {
    if BeginsWith(raw, f) {
      var e := Encode(f);
      assert e[1..4] == f.unread && e[4..8] == BigEndian(|f.body|) && e[8..] == f.body;
      assert raw[..|e|] == e;
      assert raw[1..4] == e[1..4] && raw[4..8] == e[4..8] && raw[8..|e|] == e[8..];
    }
    if Whole(raw) && f == Leading(raw) {
      BigEndianIsOnlyForm(raw[4..8]);
      assert |f.body| == FromBigEndian(raw[4..8]);
      assert Encode(f) == [raw[0]] + raw[1..4] + raw[4..8] + f.body;
      assert raw[..|Encode(f)|] == Encode(f);
    }
  }

  /** `raw` is the frames `fs` and then `rest`, which does not begin with a frame. */
  ghost predicate Cut(raw: Bytes, fs: seq<Frame>, rest: Bytes) {
    && (forall k :: 0 <= k < |fs| ==> Proper(fs[k]))
    && raw == EncodeAll(fs) + rest
    && forall f :: !BeginsWith(rest, f)
  }

  lemma CutBegins(raw: Bytes, fs: seq<Frame>, rest: Bytes)
    requires Cut(raw, fs, rest) && fs != []
    ensures Whole(raw) && fs[0] == Leading(raw)
    ensures Proper(fs[0]) && |Encode(fs[0])| <= |raw|
    ensures Cut(raw[|Encode(fs[0])|..], fs[1..], rest)
  {
    assert raw == Encode(fs[0]) + (EncodeAll(fs[1..]) + rest);
    assert BeginsWith(raw, fs[0]);
    WholeIff(raw, fs[0]);
  }

  lemma CutNone(raw: Bytes, fs: seq<Frame>, rest: Bytes)
    requires Cut(raw, fs, rest) && fs == []
    ensures !Whole(raw) && raw == rest
  {
    assert raw == rest;
    if Whole(raw) {
      WholeIff(raw, Leading(raw));
    }
  }

  lemma {:induction false} CutIsUnique(raw: Bytes, fs: seq<Frame>, rest: Bytes, gs: seq<Frame>, left: Bytes)
    requires Cut(raw, fs, rest) && Cut(raw, gs, left)
    ensures fs == gs && rest == left
    decreases |fs|
  {
    hide Encode, EncodeAll, Whole, Leading, BeginsWith, Cut;
    if fs == [] {
      CutNone(raw, fs, rest);
      if gs != [] {
        CutBegins(raw, gs, left);
      } else {
        CutNone(raw, gs, left);
      }
    } else {
      CutBegins(raw, fs, rest);
      if gs == [] {
        CutNone(raw, gs, left);
      } else {
        CutBegins(raw, gs, left);
        CutIsUnique(raw[|Encode(fs[0])|..], fs[1..], rest, gs[1..], left);
        assert fs == [fs[0]] + fs[1..] && gs == [gs[0]] + gs[1..];
      }
    }
  }

  function Joined(fs: seq<Frame>, decode: Bytes -> string): string {
    if fs == [] then "" else decode(fs[0].body) + Joined(fs[1..], decode)
  }

  /** What the reader is shown: the chunks without their headers, or the bytes as they came
      when not one frame was found. */
  ghost predicate Shows(raw: Bytes, decode: Bytes -> string, text: string) {
    exists fs, rest :: Cut(raw, fs, rest) && text == if fs == [] then decode(raw) else Joined(fs, decode)
  }

  lemma {:induction false} EncodeAllSnoc(fs: seq<Frame>, f: Frame)
    requires Proper(f) && forall k :: 0 <= k < |fs| ==> Proper(fs[k])
    ensures EncodeAll(fs + [f]) == EncodeAll(fs) + Encode(f)
  {
    if fs == [] {
      assert EncodeAll([f]) == Encode(f) + EncodeAll([]);
    } else {
      assert (fs + [f])[1..] == fs[1..] + [f];
      EncodeAllSnoc(fs[1..], f);
    }
  }

  lemma {:induction false} JoinedSnoc(fs: seq<Frame>, f: Frame, decode: Bytes -> string)
    ensures Joined(fs + [f], decode) == Joined(fs, decode) + decode(f.body)
  {
    if fs == [] {
      assert Joined([f], decode) == decode(f.body) + Joined([], decode);
    } else {
      assert (fs + [f])[1..] == fs[1..] + [f];
      JoinedSnoc(fs[1..], f, decode);
    }
  }

  lemma TakeFrame(raw: Bytes, offset: nat, fs: seq<Frame>)
    requires offset <= |raw| && Whole(raw[offset..])
    requires forall k :: 0 <= k < |fs| ==> Proper(fs[k])
    requires raw[..offset] == EncodeAll(fs)
    ensures var f := Leading(raw[offset..]);
      && Proper(f)
      && offset + 8 + |f.body| <= |raw|
      && f.body == raw[offset + 8..offset + 8 + |f.body|]
      && raw[..offset + 8 + |f.body|] == EncodeAll(fs + [f])
  {
    hide Encode, EncodeAll, Proper;
    var rest := raw[offset..];
    var f := Leading(rest);
    WholeIff(rest, f);
    BodyAt(raw, offset);
    EncodeAllSnoc(fs, f);
    PrefixOfPrefix(raw, offset, Encode(f));
  }

  lemma BodyAt(raw: Bytes, offset: nat)
    requires offset <= |raw| && Whole(raw[offset..])
    ensures var f := Leading(raw[offset..]);
      offset + 8 + |f.body| <= |raw| && f.body == raw[offset + 8..offset + 8 + |f.body|]
  {
    hide FromBigEndian;
    var rest := raw[offset..];
    var size := |Leading(rest).body|;
    assert rest[8..8 + size] == raw[offset + 8..offset + 8 + size];
  }

  lemma PrefixOfPrefix(raw: Bytes, offset: nat, e: Bytes)
    requires offset <= |raw| && e <= raw[offset..]
    ensures offset + |e| <= |raw| && raw[..offset + |e|] == raw[..offset] + e
  {
    assert raw[offset..][..|e|] == e;
  }

  method Demultiplex(raw: Bytes, decode: Bytes -> string) returns (text: string)
    ensures Shows(raw, decode, text)
  {
    hide EncodeAll, Encode, Proper;
    var out := "";
    var chunks := 0;
    var offset := 0;
    ghost var fs: seq<Frame> := [];
    while offset + 8 <= |raw|
      invariant 0 <= offset <= |raw|
      invariant forall k :: 0 <= k < |fs| ==> Proper(fs[k])
      invariant raw[..offset] == EncodeAll(fs)
      invariant chunks == |fs| && out == Joined(fs, decode)
    {
      ghost var rest := raw[offset..];
      assert rest[4..8] == raw[offset + 4..offset + 8];
      if raw[offset] !in {0, 1, 2} {
        break;
      }
      var size := FromBigEndian(raw[offset + 4..offset + 8]);
      var end := if offset + 8 + size <= |raw| then offset + 8 + size else |raw|;
      var chunk := raw[offset + 8..end];
      if |chunk| < size {
        break;
      }
      ghost var f := Leading(rest);
      TakeFrame(raw, offset, fs);
      JoinedSnoc(fs, f, decode);
      fs := fs + [f];
      out := out + decode(chunk);
      chunks := chunks + 1;
      offset := end;
    }
    ghost var rest := raw[offset..];
    assert !Whole(rest) by {
      if 8 <= |rest| {
        assert rest[4..8] == raw[offset + 4..offset + 8];
      }
    }
    forall f
      ensures !BeginsWith(rest, f)
    {
      WholeIff(rest, f);
    }
    assert raw == EncodeAll(fs) + rest;
    assert Cut(raw, fs, rest);
    text := if chunks == 0 then decode(raw) else out;
  }

  /** One text only answers to `Shows`, so the method's contract leaves it no choice. */
  lemma ShowsIsFunctional(raw: Bytes, decode: Bytes -> string, a: string, b: string)
    requires Shows(raw, decode, a) && Shows(raw, decode, b)
    ensures a == b
  {
    var fs, rest :| Cut(raw, fs, rest) && a == if fs == [] then decode(raw) else Joined(fs, decode);
    var gs, left :| Cut(raw, gs, left) && b == if gs == [] then decode(raw) else Joined(gs, decode);
    CutIsUnique(raw, fs, rest, gs, left);
  }

  /** The round trip, and what follows a truncation. Bytes after the last whole frame change
      nothing, whatever they are: half a header, half a chunk, or no frame at all. */
  lemma UndoesFraming(fs: seq<Frame>, rest: Bytes, decode: Bytes -> string, text: string)
    requires forall k :: 0 <= k < |fs| ==> Proper(fs[k])
    requires forall f :: !BeginsWith(rest, f)
    requires Shows(EncodeAll(fs) + rest, decode, text)
    ensures text == if fs == [] then decode(rest) else Joined(fs, decode)
  {
    var raw := EncodeAll(fs) + rest;
    assert Cut(raw, fs, rest);
    var gs, left :| Cut(raw, gs, left) && text == if gs == [] then decode(raw) else Joined(gs, decode);
    CutIsUnique(raw, fs, rest, gs, left);
    assert fs == [] ==> raw == rest;
  }

  /** A frame cut short anywhere before its last byte is not a frame. */
  lemma TruncatedFrameIsNoFrame(f: Frame, k: nat, g: Frame)
    requires Proper(f) && k < |Encode(f)|
    ensures !BeginsWith(Encode(f)[..k], g)
  {
    var e := Encode(f);
    if BeginsWith(e[..k], g) {
      assert BeginsWith(e, f);
      assert e[..|Encode(g)|] == e[..k][..|Encode(g)|] == Encode(g);
      assert BeginsWith(e, g);
      WholeIff(e, f);
      WholeIff(e, g);
      assert false;
    }
  }

  /** A log cut off inside its last frame shows the whole frames before the cut, and is shown
      raw when there are none. */
  lemma TruncationKeepsWholeFrames(fs: seq<Frame>, last: Frame, k: nat, decode: Bytes -> string, text: string)
    requires Proper(last) && (forall j :: 0 <= j < |fs| ==> Proper(fs[j]))
    requires k < |Encode(last)|
    requires Shows(EncodeAll(fs) + Encode(last)[..k], decode, text)
    ensures text == if fs == [] then decode(Encode(last)[..k]) else Joined(fs, decode)
  {
    forall g
      ensures !BeginsWith(Encode(last)[..k], g)
    {
      TruncatedFrameIsNoFrame(last, k, g);
    }
    UndoesFraming(fs, Encode(last)[..k], decode, text);
  }

  lemma LongerBeginsAlike(raw: Bytes, more: Bytes)
    requires Whole(raw)
    ensures Whole(raw + more) && Leading(raw + more) == Leading(raw)
    ensures Proper(Leading(raw)) && |Encode(Leading(raw))| <= |raw|
  {
    WholeIff(raw, Leading(raw));
    assert raw <= raw + more;
    assert (raw + more)[4..8] == raw[4..8];
  }

  /** Reading more of the same log never takes back a frame already found. */
  lemma {:induction false} MoreBytesKeepFrames(raw: Bytes, more: Bytes, fs: seq<Frame>, rest: Bytes, gs: seq<Frame>, left: Bytes)
    requires Cut(raw, fs, rest) && Cut(raw + more, gs, left)
    ensures fs <= gs
    decreases |fs|
  {
    hide Encode, EncodeAll, Cut;
    if fs != [] {
      CutBegins(raw, fs, rest);
      LongerBeginsAlike(raw, more);
      if gs == [] {
        CutNone(raw + more, gs, left);
      } else {
        CutBegins(raw + more, gs, left);
        var size := |Encode(fs[0])|;
        assert (raw + more)[size..] == raw[size..] + more;
        MoreBytesKeepFrames(raw[size..], more, fs[1..], rest, gs[1..], left);
        assert fs == [fs[0]] + fs[1..] && gs == [gs[0]] + gs[1..];
      }
    }
  }
}
