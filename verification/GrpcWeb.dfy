/** The two readers of a gRPC-Web text body: every part of the body is base64 with its own
    padding, and the bytes they join to are frames of a flag, a length and a payload. */
module GrpcWeb {
  import opened Base64
  import opened Bytes
  import opened Options

  // ---- what the server writes

  /** The body: each part encoded with its own padding. */
  function Text(parts: seq<seq<Byte>>): string
    decreases |parts|
  {
    if parts == [] then "" else Encode(parts[0]) + Text(parts[1..])
  }

  function Flat(parts: seq<seq<Byte>>): seq<Byte>
    decreases |parts|
  {
    if parts == [] then [] else parts[0] + Flat(parts[1..])
  }

  const SIZES := 0x1_0000_0000

  datatype Frame = Frame(flags: Byte, payload: seq<Byte>) {
    predicate Fits() { |payload| < SIZES }
  }

  /** Four bytes, most significant first. */
  function BigEndian(n: nat): (b: seq<Byte>)
    requires n < SIZES
    ensures |b| == 4
  {
    var (a, b, c) := (n / 256, n / 256 / 256, n / 256 / 256 / 256);
    [c, b % 256, a % 256, n % 256]
  }

  function FromBigEndian(b: seq<Byte>): (n: nat)
    requires |b| == 4
  {
    ((b[0] as nat * 256 + b[1]) * 256 + b[2]) * 256 + b[3]
  }

  lemma SizeReadsBack(n: nat)
    requires n < SIZES
    ensures FromBigEndian(BigEndian(n)) == n
  {
  }

  function Wire(frames: seq<Frame>): seq<Byte>
    requires forall i :: 0 <= i < |frames| ==> frames[i].Fits()
    decreases |frames|
  {
    if frames == [] then [] else
      assert frames[0].Fits();
      [frames[0].flags] + BigEndian(|frames[0].payload|) + frames[0].payload + Wire(frames[1..])
  }

  // ---- two ways to split the body

  /** The end of the run at `i` of characters that are padding signs, or that are not. */
  function RunEnd(s: string, i: nat, signs: bool): (e: nat)
    requires i <= |s|
    ensures i <= e <= |s|
    ensures forall k :: i <= k < e ==> (s[k] == '=') == signs
    ensures e < |s| ==> (s[e] == '=') != signs
    decreases |s| - i
  {
    if i < |s| && (s[i] == '=') == signs then RunEnd(s, i + 1, signs) else i
  }

  /** Segments that end after each run of padding signs. */
  function Cut(s: string): seq<string>
    decreases |s|
  {
    if s == [] then [] else
      var e := RunEnd(s, RunEnd(s, 0, false), true);
      assert e > 0;
      [s[..e]] + Cut(s[e..])
  }

  /** Pieces between padding signs. */
  function SplitOn(s: string): seq<string>
    decreases |s|
  {
    var e := RunEnd(s, 0, false);
    if e < |s| then [s[..e]] + SplitOn(s[e + 1..]) else [s]
  }

  function Padded(s: string): string {
    s + Signs((4 - |s| % 4) % 4)
  }

  /** Every segment decoded and joined; one bad segment fails the whole. */
  function Strict(segments: seq<string>): Option<seq<Byte>>
    decreases |segments|
  {
    if segments == [] then Some([])
    else match (Decode(Padded(segments[0])), Strict(segments[1..]))
      case (Some(a), Some(b)) => Some(a + b)
      case _ => None
  }

  /** Every piece decoded and joined; a bad piece is passed over. */
  function Lenient(pieces: seq<string>): seq<Byte>
    decreases |pieces|
  {
    if pieces == [] then []
    else (match Decode(Padded(pieces[0])) case Some(a) => a case None => []) + Lenient(pieces[1..])
  }

  lemma {:induction false} StrictSnoc(segments: seq<string>, last: string)
    ensures Strict(segments + [last]) ==
      match (Strict(segments), Decode(Padded(last))) case (Some(a), Some(b)) => Some(a + b) case _ => None
    decreases |segments|
  {
    hide Decode, Padded;
    if segments == [] {
      assert [] + [last] == [last] && [last][1..] == [];
      match Decode(Padded(last)) {
        case Some(b) => assert b + [] == b && [] + b == b;
        case None =>
      }
    } else {
      assert (segments + [last])[1..] == segments[1..] + [last];
      StrictSnoc(segments[1..], last);
      match (Decode(Padded(segments[0])), Strict(segments[1..]), Decode(Padded(last))) {
        case (Some(a), Some(b), Some(c)) => assert a + (b + c) == (a + b) + c;
        case _ =>
      }
    }
  }

  lemma {:induction false} LenientSnoc(pieces: seq<string>, last: string)
    ensures Lenient(pieces + [last]) == Lenient(pieces) + (match Decode(Padded(last)) case Some(a) => a case None => [])
    decreases |pieces|
  {
    hide Decode, Padded;
    if pieces == [] {
      assert [] + [last] == [last] && [last][1..] == [];
    } else {
      assert (pieces + [last])[1..] == pieces[1..] + [last];
      LenientSnoc(pieces[1..], last);
    }
  }

  /** What the finance probe reads out of a body. */
  function FinanceBytes(raw: string): Option<seq<Byte>> {
    Strict(Cut(raw))
  }

  /** What the assistant probe reads: if the pieces give nothing, the whole body is tried. */
  function AssistantBytes(raw: string): Option<seq<Byte>> {
    var blob := Lenient(SplitOn(raw));
    if blob != [] then Some(blob) else Decode(Padded(raw))
  }

  // ---- the loops

  lemma CutStep(raw: string, start: nat, i: nat, e: nat)
    requires start <= i < e <= |raw| && (forall k :: start <= k < i ==> raw[k] != '=')
    requires (forall k :: i <= k < e ==> raw[k] == '=') && (e < |raw| ==> raw[e] != '=')
    ensures Cut(raw[start..]) == [raw[start..e]] + Cut(raw[e..])
  {
    var s := raw[start..];
    var a := RunEnd(s, 0, false);
    assert s[i - start] == '=';
    assert a == i - start;
    var b := RunEnd(s, a, true);
    assert b == e - start;
    assert s[..b] == raw[start..e] && s[b..] == raw[e..];
  }

  lemma CutEnd(raw: string, start: nat)
    requires start < |raw| && forall k :: start <= k < |raw| ==> raw[k] != '='
    ensures Cut(raw[start..]) == [raw[start..]]
  {
    var s := raw[start..];
    assert RunEnd(s, 0, false) == |s|;
    assert s[..|s|] == s && s[|s|..] == [];
  }

  method FinanceBody(raw: string) returns (data: Option<seq<Byte>>)
    ensures data == FinanceBytes(raw)
  {
    hide Cut, Strict, Decode, Padded;
    var segments: seq<string> := [];
    var start, i := 0, 0;
    assert raw[0..] == raw;
    while i < |raw|
      invariant start <= i <= |raw| && segments + Cut(raw[start..]) == Cut(raw)
      invariant forall k :: start <= k < i ==> raw[k] != '='
    {
      if raw[i] == '=' {
        ghost var first := i;
        while i < |raw| && raw[i] == '='
          invariant first <= i <= |raw| && forall k :: first <= k < i ==> raw[k] == '='
        {
          i := i + 1;
        }
        CutStep(raw, start, first, i);
        assert segments + ([raw[start..i]] + Cut(raw[i..])) == (segments + [raw[start..i]]) + Cut(raw[i..]);
        segments := segments + [raw[start..i]];
        start := i;
      } else {
        i := i + 1;
      }
    }
    if start < |raw| {
      CutEnd(raw, start);
      segments := segments + [raw[start..]];
    } else {
      CutNothing(raw);
    }
    assert segments == Cut(raw);
    var joined: seq<Byte> := [];
    StrictNothing(segments);
    for j := 0 to |segments|
      invariant Strict(segments[..j]) == Some(joined)
    {
      assert segments[..j + 1] == segments[..j] + [segments[j]];
      StrictSnoc(segments[..j], segments[j]);
      match Decode(Padded(segments[j])) {
        case Some(b) => joined := joined + b;
        case None =>
          StrictFails(segments, j + 1);
          return None;
      }
    }
    assert segments[..|segments|] == segments;
    return Some(joined);
  }

  lemma CutNothing(raw: string)
    ensures Cut(raw[|raw|..]) == []
  {
  }

  lemma StrictNothing(segments: seq<string>)
    ensures Strict(segments[..0]) == Some([]) && Lenient(segments[..0]) == []
  {
  }

  lemma {:induction false} StrictFails(segments: seq<string>, j: nat)
    requires j <= |segments| && Strict(segments[..j]) == None
    ensures Strict(segments) == None
    decreases |segments| - j
  {
    hide Decode, Padded, Strict;
    if j < |segments| {
      assert segments[..j + 1] == segments[..j] + [segments[j]];
      StrictSnoc(segments[..j], segments[j]);
      StrictFails(segments, j + 1);
    } else {
      assert segments[..j] == segments;
    }
  }

  method AssistantBody(raw: string) returns (data: Option<seq<Byte>>)
    ensures data == AssistantBytes(raw)
  {
    hide SplitOn, Lenient, Decode, Padded;
    var pieces := SplitOn(raw);
    var blob: seq<Byte> := [];
    StrictNothing(pieces);
    for j := 0 to |pieces|
      invariant blob == Lenient(pieces[..j])
    {
      assert pieces[..j + 1] == pieces[..j] + [pieces[j]];
      LenientSnoc(pieces[..j], pieces[j]);
      if pieces[j] == "" {
        DecodeNothing();
      } else {
        match Decode(Padded(pieces[j])) {
          case Some(b) => blob := blob + b;
          case None =>
        }
      }
    }
    assert pieces[..|pieces|] == pieces;
    if blob == [] {
      return Decode(Padded(raw));
    }
    return Some(blob);
  }

  lemma DecodeNothing()
    ensures Decode(Padded("")) == Some([])
  {
    assert Padded("") == "";
  }

  // ---- both read the server's bytes

  /** A segment: the letters of `b`, with its padding or without. */
  lemma PaddedBody(b: seq<Byte>)
    ensures Padded(Body(b)) == Encode(b) && Padded(Encode(b)) == Encode(b)
    ensures Decode(Encode(b)) == Some(b)
  {
    hide Body, Decode;
    BodyLength(b);
    var n := |Body(b)|;
    assert (4 - n % 4) % 4 == PadFor(|b|);
    assert |Encode(b)| % 4 == 0;
    assert Encode(b) + Signs(0) == Encode(b);
    DecodeStops(b, "");
    assert Encode(b) + "" == Encode(b);
  }

  lemma {:induction false} TextStarts(parts: seq<seq<Byte>>)
    ensures Text(parts) != [] ==> Text(parts)[0] != '='
    decreases |parts|
  {
    hide Body;
    if parts != [] {
      TextStarts(parts[1..]);
      if parts[0] != [] {
        assert Text(parts)[0] == Body(parts[0])[0];
        assert Body(parts[0])[0] in Body(parts[0]);
      } else {
        assert Encode([]) == "";
      }
    }
  }

  /** The letters of `b`, its padding, and text that does not start with padding. */
  lemma CutPart(b: seq<Byte>, rest: string)
    requires |b| % 3 != 0 && (rest != [] ==> rest[0] != '=')
    ensures Cut(Encode(b) + rest) == [Encode(b)] + Cut(rest)
  {
    hide Body, Cut;
    var raw := Encode(b) + rest;
    var i, e := |Body(b)|, |Encode(b)|;
    assert forall k :: 0 <= k < i ==> raw[k] == Body(b)[k] && Body(b)[k] in Body(b);
    assert forall k :: i <= k < e ==> raw[k] == Signs(PadFor(|b|))[k - i];
    assert e < |raw| ==> raw[e] == rest[0];
    CutStep(raw, 0, i, e);
    assert raw[0..] == raw && raw[0..e] == Encode(b) && raw[e..] == rest;
  }

  /** The letters carried so far and the next part are one encoding. */
  lemma TextStep(a: seq<Byte>, parts: seq<seq<Byte>>)
    requires |a| % 3 == 0 && parts != []
    ensures Body(a) + Text(parts) == Encode(a + parts[0]) + Text(parts[1..])
    ensures a + Flat(parts) == (a + parts[0]) + Flat(parts[1..])
  {
    hide Body, Encode;
    var c := parts[0];
    SamePadding(a, c);
    assert Body(a) + (Encode(c) + Text(parts[1..])) == (Body(a) + Encode(c)) + Text(parts[1..]);
  }

  lemma CutTextStep(b: seq<Byte>, rest: seq<seq<Byte>>)
    requires |b| % 3 != 0 && Strict(Cut(Text(rest))) == Some(Flat(rest))
    ensures Strict(Cut(Encode(b) + Text(rest))) == Some(b + Flat(rest))
  {
    hide Body, Encode, Decode, Padded, Cut, Text, Flat;
    TextStarts(rest);
    CutPart(b, Text(rest));
    PaddedBody(b);
    var all := [Encode(b)] + Cut(Text(rest));
    assert all[0] == Encode(b) && all[1..] == Cut(Text(rest));
  }

  lemma {:induction false} CutText(a: seq<Byte>, parts: seq<seq<Byte>>)
    requires |a| % 3 == 0
    ensures Strict(Cut(Body(a) + Text(parts))) == Some(a + Flat(parts))
    decreases |parts|
  {
    hide Body, Encode, Cut, Strict;
    if parts == [] {
      assert a + [] == a && Body(a) + "" == Body(a);
      CutBody(a);
    } else {
      hide Text, Flat;
      var b, rest := a + parts[0], parts[1..];
      TextStep(a, parts);
      if |parts[0]| % 3 == 0 {
        WholeEncoding(b);
        CutText(b, rest);
      } else {
        BodyNothing();
        CutText([], rest);
        assert Body([]) + Text(rest) == Text(rest) && [] + Flat(rest) == Flat(rest);
        CutTextStep(b, rest);
      }
    }
  }

  lemma WholeEncoding(b: seq<Byte>)
    requires |b| % 3 == 0
    ensures Encode(b) == Body(b)
  {
    hide Body;
    assert PadFor(|b|) == 0;
    assert Body(b) + Signs(0) == Body(b);
  }

  lemma BodyNothing()
    ensures Body([]) == ""
  {
  }

  lemma EncodeParts(b: seq<Byte>)
    ensures Encode(b) == Body(b) + Signs(PadFor(|b|))
  {
  }

  lemma Regroup(x: string, y: string, z: string)
    ensures (x + y) + z == x + (y + z)
  {
  }

  lemma SamePadding(a: seq<Byte>, c: seq<Byte>)
    requires |a| % 3 == 0
    ensures Encode(a + c) == Body(a) + Encode(c)
  {
    hide *;
    BodyConcat(a, c);
    PadForSum(|a|, |c|);
    assert |a + c| == |a| + |c|;
    EncodeParts(a + c);
    EncodeParts(c);
    Regroup(Body(a), Body(c), Signs(PadFor(|c|)));
  }

  lemma CutBody(a: seq<Byte>)
    requires |a| % 3 == 0
    ensures Strict(Cut(Body(a))) == Some(a)
  {
    hide Body, Decode, Padded;
    if a == [] {
      BodyNothing();
    } else {
      var s := Body(a);
      assert forall k :: 0 <= k < |s| ==> s[k] in s;
      CutEnd(s, 0);
      assert s[0..] == s;
      PaddedBody(a);
      assert a + [] == a;
    }
  }

  /** The piece before a padding sign is decoded by itself. */
  lemma LenientStep(b: seq<Byte>, rest: string)
    ensures Lenient(SplitOn(Body(b) + "=" + rest)) == b + Lenient(SplitOn(rest))
  {
    hide Body, Decode, Padded, SplitOn;
    SplitStep(Body(b), rest);
    PaddedBody(b);
    var all := [Body(b)] + SplitOn(rest);
    assert all[0] == Body(b) && all[1..] == SplitOn(rest);
  }

  /** One padding sign or two: one piece, or one piece and an empty one. */
  lemma SplitPart(b: seq<Byte>, rest: string)
    requires |b| % 3 != 0
    ensures Lenient(SplitOn(Encode(b) + rest)) == b + Lenient(SplitOn(rest))
  {
    hide Body, Lenient, SplitOn;
    if |b| % 3 == 2 {
      assert Encode(b) + rest == Body(b) + "=" + rest;
      LenientStep(b, rest);
    } else {
      BodyNothing();
      var after := Body([]) + "=" + rest;
      assert Encode(b) + rest == Body(b) + "=" + after;
      LenientStep(b, after);
      LenientStep([], rest);
      assert [] + Lenient(SplitOn(rest)) == Lenient(SplitOn(rest));
    }
  }

  /** The first padding sign ends the first piece. */
  lemma SplitAt(t: string, n: nat)
    requires n < |t| && t[n] == '=' && forall k :: 0 <= k < n ==> t[k] != '='
    ensures SplitOn(t) == [t[..n]] + SplitOn(t[n + 1..])
  {
    assert RunEnd(t, 0, false) == n;
  }

  lemma SplitStep(s: string, rest: string)
    requires '=' !in s
    ensures SplitOn(s + "=" + rest) == [s] + SplitOn(rest)
  {
    hide SplitOn;
    var t := s + "=" + rest;
    assert t[..|s|] == s && t[|s| + 1..] == rest;
    assert forall k :: 0 <= k < |s| ==> t[k] == s[k] && s[k] in s;
    SplitAt(t, |s|);
  }

  lemma {:induction false} SplitText(a: seq<Byte>, parts: seq<seq<Byte>>)
    requires |a| % 3 == 0
    ensures Lenient(SplitOn(Body(a) + Text(parts))) == a + Flat(parts)
    decreases |parts|
  {
    hide Body, Encode, SplitOn, Lenient;
    if parts == [] {
      assert a + [] == a && Body(a) + "" == Body(a);
      SplitBody(a);
    } else {
      hide Text, Flat;
      var b, rest := a + parts[0], parts[1..];
      TextStep(a, parts);
      if |parts[0]| % 3 == 0 {
        WholeEncoding(b);
        SplitText(b, rest);
      } else {
        BodyNothing();
        SplitText([], rest);
        assert Body([]) + Text(rest) == Text(rest) && [] + Flat(rest) == Flat(rest);
        SplitPart(b, Text(rest));
      }
    }
  }

  lemma SplitBody(a: seq<Byte>)
    requires |a| % 3 == 0
    ensures Lenient(SplitOn(Body(a))) == a
  {
    hide Body, Decode, Padded;
    var s := Body(a);
    assert forall k :: 0 <= k < |s| ==> s[k] in s;
    assert SplitOn(s) == [s];
    var pieces := [s];
    assert pieces[1..] == [];
    PaddedBody(a);
    assert a + [] == a;
  }

  /** Whatever the parts, both probes read exactly the bytes the server encoded. */
  lemma BothRead(parts: seq<seq<Byte>>)
    ensures FinanceBytes(Text(parts)) == Some(Flat(parts))
    ensures AssistantBytes(Text(parts)) == Some(Flat(parts))
  {
    hide Cut, SplitOn, Strict, Lenient, Decode, Padded, Body;
    BodyNothing();
    assert Body([]) + Text(parts) == Text(parts);
    assert [] + Flat(parts) == Flat(parts);
    CutText([], parts);
    SplitText([], parts);
    if Flat(parts) == [] {
      NothingSent(parts);
      DecodeNothing();
    }
  }

  lemma {:induction false} NothingSent(parts: seq<seq<Byte>>)
    requires Flat(parts) == []
    ensures Text(parts) == ""
    decreases |parts|
  {
    if parts != [] {
      assert parts[0] == [];
      NothingSent(parts[1..]);
    }
  }

  // ---- the frame walk

  /** The payload of the last message frame and of the last trailer frame. */
  datatype Reply = Reply(message: Option<seq<Byte>>, trailers: Option<seq<Byte>>) {
    function See(trailer: bool, payload: seq<Byte>): Reply {
      if trailer then this.(trailers := Some(payload)) else this.(message := Some(payload))
    }
  }

  /** How each probe tells a trailer frame by its flags. */
  datatype Probe = Finance | Assistant {
    predicate IsTrailer(flags: Byte) {
      match this case Finance => flags != 0 case Assistant => flags >= 128
    }
  }

  function AtMost(n: nat, m: nat): nat {
    if n < m then n else m
  }

  function Walk(data: seq<Byte>, seen: Reply, p: Probe): Reply
    decreases |data|
  {
    if |data| < 5 then seen
    else
      var e := AtMost(5 + FromBigEndian(data[1..5]), |data|);
      Walk(data[e..], seen.See(p.IsTrailer(data[0]), data[5..e]), p)
  }

  lemma WalkStep(data: seq<Byte>, off: nat, seen: Reply, p: Probe)
    requires off + 5 <= |data|
    ensures var next := off + 5 + FromBigEndian(data[off + 1..off + 5]);
      Walk(data[off..], seen, p) ==
      Walk(data[AtMost(next, |data|)..], seen.See(p.IsTrailer(data[off]), data[off + 5..AtMost(next, |data|)]), p)
  {
    hide FromBigEndian;
    var rest := data[off..];
    var size := FromBigEndian(data[off + 1..off + 5]);
    var e := AtMost(off + 5 + size, |data|);
    assert rest[1..5] == data[off + 1..off + 5] && rest[0] == data[off];
    assert rest[5..e - off] == data[off + 5..e] && rest[e - off..] == data[e..];
  }

  method WalkFrames(data: seq<Byte>, p: Probe) returns (r: Reply)
    ensures r == Walk(data, Reply(None, None), p)
  {
    hide FromBigEndian, Walk;
    r := Reply(None, None);
    var off := 0;
    assert data[0..] == data;
    while off + 5 <= |data|
      invariant Walk(data[AtMost(off, |data|)..], r, p) == Walk(data, Reply(None, None), p)
      decreases |data| - off
    {
      var size := FromBigEndian(data[off + 1..off + 5]);
      var e := AtMost(off + 5 + size, |data|);
      WalkStep(data, off, r, p);
      r := r.See(p.IsTrailer(data[off]), data[off + 5..e]);
      off := off + 5 + size;
    }
    WalkEnd(data[AtMost(off, |data|)..], r, p);
  }

  lemma WalkEnd(data: seq<Byte>, seen: Reply, p: Probe)
    requires |data| < 5
    ensures Walk(data, seen, p) == seen
  {
  }

  /** The payload of the last frame that is, or is not, a trailer, or `otherwise`. */
  function LastOf(frames: seq<Frame>, p: Probe, trailer: bool, otherwise: Option<seq<Byte>>): Option<seq<Byte>>
    decreases |frames|
  {
    if frames == [] then otherwise
    else if p.IsTrailer(frames[|frames| - 1].flags) == trailer then Some(frames[|frames| - 1].payload)
    else LastOf(frames[..|frames| - 1], p, trailer, otherwise)
  }

  lemma {:induction false} LastOfRest(frames: seq<Frame>, p: Probe, trailer: bool, otherwise: Option<seq<Byte>>)
    requires frames != []
    ensures LastOf(frames, p, trailer, otherwise) ==
      LastOf(frames[1..], p, trailer, if p.IsTrailer(frames[0].flags) == trailer then Some(frames[0].payload)
        else otherwise)
    decreases |frames|
  {
    if |frames| > 1 {
      LastOfRest(frames[..|frames| - 1], p, trailer, otherwise);
      assert frames[..|frames| - 1][1..] == frames[1..][..|frames| - 2];
    } else {
      assert frames[1..] == [] && frames[..0] == [];
    }
  }

  /** Walking the frames keeps the last payload of each kind; fewer than five stray bytes at
      the end change nothing. */
  lemma {:induction false} WalkReads(frames: seq<Frame>, stray: seq<Byte>, seen: Reply, p: Probe)
    requires |stray| < 5 && forall i :: 0 <= i < |frames| ==> frames[i].Fits()
    ensures Walk(Wire(frames) + stray, seen, p) ==
      Reply(LastOf(frames, p, false, seen.message), LastOf(frames, p, true, seen.trailers))
    decreases |frames|
  {
    hide FromBigEndian, BigEndian, LastOf;
    if frames == [] {
      LastOfNone(p, seen);
    } else {
      var f := frames[0];
      var n := |f.payload|;
      var data := Wire(frames) + stray;
      SizeReadsBack(n);
      assert data == [f.flags] + BigEndian(n) + f.payload + (Wire(frames[1..]) + stray);
      assert data[1..5] == BigEndian(n) && data[5..5 + n] == f.payload && data[5 + n..] == Wire(frames[1..]) + stray;
      WalkReads(frames[1..], stray, seen.See(p.IsTrailer(f.flags), f.payload), p);
      LastOfRest(frames, p, false, seen.message);
      LastOfRest(frames, p, true, seen.trailers);
    }
  }

  lemma LastOfNone(p: Probe, seen: Reply)
    ensures LastOf([], p, false, seen.message) == seen.message && LastOf([], p, true, seen.trailers) == seen.trailers
  {
  }

  // ---- whole bodies

  /** However the server cuts its frames into base64 parts, each probe finds the last message
      and the last trailers. */
  lemma BodyReadBack(parts: seq<seq<Byte>>, frames: seq<Frame>, p: Probe)
    requires (forall i :: 0 <= i < |frames| ==> frames[i].Fits()) && Flat(parts) == Wire(frames)
    ensures var bytes := if p.Finance? then FinanceBytes(Text(parts)) else AssistantBytes(Text(parts));
      bytes.Some? && Walk(bytes.value, Reply(None, None), p) ==
        Reply(LastOf(frames, p, false, None), LastOf(frames, p, true, None))
  {
    hide Walk, LastOf, FinanceBytes, AssistantBytes, Wire;
    BothRead(parts);
    WalkReads(frames, [], Reply(None, None), p);
    assert Wire(frames) + [] == Wire(frames);
  }

  /** The probes disagree on one frame exactly when its flags are neither zero nor have the
      top bit set. */
  lemma FrameKinds(flags: Byte)
    ensures Finance.IsTrailer(flags) == Assistant.IsTrailer(flags) <==> flags == 0 || flags >= 128
  {
  }

  /** Flags that one probe takes for a trailer and the other for a message. */
  predicate Disputed(flags: Byte) {
    0 < flags < 128
  }

  /** Flags that both probes read as this kind. */
  predicate Agreed(flags: Byte, trailer: bool) {
    if trailer then flags >= 128 else flags == 0
  }

  /** Every frame the probes read differently is followed by one of the kind for both. */
  ghost predicate Followed(frames: seq<Frame>, trailer: bool) {
    forall i :: 0 <= i < |frames| && Disputed(frames[i].flags) ==>
      exists j :: i < j < |frames| && Agreed(frames[j].flags, trailer)
  }

  /** Which frame a probe takes its payload from; -1 if none. */
  function LastAt(frames: seq<Frame>, p: Probe, trailer: bool): (k: int)
    ensures -1 <= k < |frames|
    decreases |frames|
  {
    if frames == [] then -1
    else if p.IsTrailer(frames[|frames| - 1].flags) == trailer then |frames| - 1
    else LastAt(frames[..|frames| - 1], p, trailer)
  }

  lemma {:induction false} LastOfAt(frames: seq<Frame>, p: Probe, trailer: bool, otherwise: Option<seq<Byte>>)
    ensures var k := LastAt(frames, p, trailer);
      LastOf(frames, p, trailer, otherwise) == if k < 0 then otherwise else Some(frames[k].payload)
    decreases |frames|
  {
    if frames != [] {
      LastOfAt(frames[..|frames| - 1], p, trailer, otherwise);
    }
  }

  lemma FollowedStep(init: seq<Frame>, f: Frame, trailer: bool)
    ensures Agreed(f.flags, trailer) ==> Followed(init + [f], trailer)
    ensures Disputed(f.flags) ==> !Followed(init + [f], trailer)
    ensures Agreed(f.flags, !trailer) ==> (Followed(init + [f], trailer) <==> Followed(init, trailer))
  {
    var frames := init + [f];
    assert frames[|init|] == f;
    assert forall i :: 0 <= i < |init| ==> frames[i] == init[i];
    if Agreed(f.flags, !trailer) && Followed(frames, trailer) {
      forall i | 0 <= i < |init| && Disputed(init[i].flags)
        ensures exists j :: i < j < |init| && Agreed(init[j].flags, trailer)
      {
        assert Disputed(frames[i].flags);
        var j :| i < j < |frames| && Agreed(frames[j].flags, trailer);
        assert Agreed(init[j].flags, trailer);
      }
    }
    if Agreed(f.flags, !trailer) && Followed(init, trailer) {
      forall i | 0 <= i < |frames| && Disputed(frames[i].flags)
        ensures exists j :: i < j < |frames| && Agreed(frames[j].flags, trailer)
      {
        var j :| i < j < |init| && Agreed(init[j].flags, trailer);
        assert Agreed(frames[j].flags, trailer);
      }
    }
  }

  /** Both probes take the payload of the same frame exactly when every disputed frame is
      followed by one they agree on. */
  lemma {:induction false} SameFrame(frames: seq<Frame>, trailer: bool)
    ensures LastAt(frames, Finance, trailer) == LastAt(frames, Assistant, trailer) <==> Followed(frames, trailer)
    decreases |frames|
  {
    hide Followed;
    if frames == [] {
      NoneFollowed(trailer);
    } else {
      var init, f := frames[..|frames| - 1], frames[|frames| - 1];
      assert frames == init + [f];
      SameFrame(init, trailer);
      FollowedStep(init, f, trailer);
    }
  }

  lemma NoneFollowed(trailer: bool)
    ensures Followed([], trailer)
  {
  }

  /** Then they report the same payload. */
  lemma SameReply(frames: seq<Frame>, trailer: bool, otherwise: Option<seq<Byte>>)
    requires Followed(frames, trailer)
    ensures LastOf(frames, Finance, trailer, otherwise) == LastOf(frames, Assistant, trailer, otherwise)
  {
    hide Followed;
    SameFrame(frames, trailer);
    LastOfAt(frames, Finance, trailer, otherwise);
    LastOfAt(frames, Assistant, trailer, otherwise);
  }

  /** Otherwise they report different ones, when no two frames carry the same payload. */
  lemma DifferentReply(frames: seq<Frame>, trailer: bool)
    requires !Followed(frames, trailer)
    requires forall i, j :: 0 <= i < j < |frames| ==> frames[i].payload != frames[j].payload
    ensures LastOf(frames, Finance, trailer, None) != LastOf(frames, Assistant, trailer, None)
  {
    hide Followed;
    SameFrame(frames, trailer);
    LastOfAt(frames, Finance, trailer, None);
    LastOfAt(frames, Assistant, trailer, None);
  }
}
