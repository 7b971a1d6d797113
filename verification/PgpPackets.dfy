/** Walking over the packets of an OpenPGP message by their headers (RFC 4880,
    section 4.2).

    Headers come in an old and a new form; a packet in the new form may be cut
    into chunks, each with a length of its own and all but the first without a
    tag. */
module PgpPackets {

  type Byte = b: nat | b < 256

  type Bytes = seq<Byte>

  datatype Label = Unencrypted | Encrypted | Signature | Key

  // ----- Headers

  /** tag is -1 for an illegal header; bodyLen is -1 for a body of unknown length. */
  datatype Header = Header(tag: int, hdrLen: nat, bodyLen: int, partial: bool)

  const ILLEGAL := Header(-1, 0, 0, false)

  const DATA_TAGS: set<nat> := {8, 9, 11, 18}

  function At(h: Bytes, i: nat): Byte {
    if i < |h| then h[i] else 0
  }

  function Pow2(n: nat): nat {
    if n == 0 then 1 else 2 * Pow2(n - 1)
  }

  function Number(h: Bytes, first: nat, n: nat): nat {
    if n == 0 then 0 else Number(h, first, n - 1) * 256 + At(h, first + n - 1)
  }

  /** A new-format length that starts at the given octet. */
  function NewLength(h: Bytes, i: nat, tag: nat): Header {
    var b := At(h, i);
    if b < 192 then Header(tag, i + 1, b, false)
    else if b < 224 then Header(tag, i + 2, (b - 192) * 256 + At(h, i + 1) + 192, false)
    else if b < 255 then Header(tag, i + 1, Pow2(b % 32), true)
    else Header(tag, i + 5, Number(h, i + 1, 4), false)
  }

  function OldLength(h: Bytes, tag: nat, lengthType: nat): Header {
    if lengthType < 3 then Header(tag, 1 + Pow2(lengthType), Number(h, 1, Pow2(lengthType)), false)
    else if tag == 8 && 1 <= At(h, 1) <= 3 then Header(tag, 1, -1, false)
    else ILLEGAL
  }

  /** The header at the start of the octets; after a chunk of a body there is only the
      length of the next one. */
  function Parse(h: Bytes, prevPartial: bool): Header {
    var first := At(h, 0);
    var r :=
      if prevPartial then NewLength(h, 0, 0)
      else if first >= 192 then
        var r := NewLength(h, 1, first % 64);
        if r.partial && first % 64 !in DATA_TAGS then ILLEGAL else r
      else if first >= 128 then OldLength(h, first % 64 / 4, first % 4)
      else ILLEGAL;
    if r.hdrLen > |h| then ILLEGAL else r
  }

  /** Sums and remainders stand for the shifts and masks on octets. */
  method ParseHeader(header: Bytes, prevPartial: bool) returns (r: Header)
    ensures r == Parse(header, prevPartial)
  {
    var hdr: seq<int> := header + Zeros(if |header| < 6 then 6 - |header| else 0);
    assert forall i :: 0 <= i < |hdr| ==> hdr[i] == At(header, i);
    var hdrLen: nat, isPartial := 1, false;
    var ptag: int, bodyLen: int;
    if prevPartial {
      hdr := [0] + hdr;
      hdrLen := 0;
    }
    if prevPartial || hdr[0] >= 192 {
      ptag := hdr[0] % 64;
      bodyLen := hdr[1];
      hdrLen := hdrLen + 1;
      if bodyLen < 192 {
      } else if bodyLen <= 223 {
        hdrLen := hdrLen + 1;
        bodyLen := (bodyLen - 192) * 256 + hdr[2] + 192;
      } else if bodyLen == 255 {
        hdrLen := hdrLen + 4;
        bodyLen := hdr[2] * 0x100_0000 + hdr[3] * 0x1_0000 + hdr[4] * 0x100 + hdr[5];
        FourOctets(header, if prevPartial then 1 else 2);
      } else {
        if !prevPartial && ptag !in DATA_TAGS {
          return ILLEGAL;
        }
        isPartial := true;
        bodyLen := Pow2(hdr[1] % 32);
      }
    } else if hdr[0] >= 128 {
      ptag := hdr[0] % 64 / 4;
      var lengthType := hdr[0] % 4;
      if lengthType < 3 {
        hdrLen := 2;
        bodyLen := hdr[1];
        if lengthType > 0 {
          hdrLen := 3;
          bodyLen := bodyLen * 0x100 + hdr[2];
        }
        if lengthType > 1 {
          hdrLen := 5;
          bodyLen := bodyLen * 0x1_0000 + hdr[3] * 0x100 + hdr[4];
        }
        FourOctets(header, 1);
      } else {
        if ptag != 8 || hdr[1] < 1 || hdr[1] > 3 {
          return ILLEGAL;
        }
        hdrLen := 1;
        bodyLen := -1;
      }
    } else {
      return ILLEGAL;
    }
    if hdrLen > |header| {
      return ILLEGAL;
    }
    return Header(ptag, hdrLen, bodyLen, isPartial);
  }

  function Zeros(n: nat): Bytes {
    seq(n, i => 0)
  }

  lemma FourOctets(h: Bytes, i: nat)
    ensures Number(h, i, 1) == At(h, i)
    ensures Number(h, i, 2) == At(h, i) * 0x100 + At(h, i + 1)
    ensures Number(h, i, 4) == At(h, i) * 0x100_0000 + At(h, i + 1) * 0x1_0000 + At(h, i + 2) * 0x100 + At(h, i + 3)
    ensures Pow2(0) == 1 && Pow2(1) == 2 && Pow2(2) == 4
  {
    assert Number(h, i, 1) == Number(h, i, 0) * 256 + At(h, i);
    assert Number(h, i, 2) == Number(h, i, 1) * 256 + At(h, i + 1);
    assert Number(h, i, 3) == Number(h, i, 2) * 256 + At(h, i + 2);
    assert Number(h, i, 4) == Number(h, i, 3) * 256 + At(h, i + 3);
  }

  // ----- The walk

  /** Where the walk goes: the positions after each header that is read, and the labels;
      no labels if it gives up. */
  datatype Trace = Trace(stops: seq<nat>, found: set<Label>)

  function LabelsOf(tag: int): set<Label> {
    if tag == 11 then {Unencrypted}
    else if tag == 1 || tag == 9 || tag == 18 then {Encrypted}
    else if tag == 2 || tag == 4 then {Signature}
    else if tag == 6 || tag == 14 then {Key}
    else {}
  }

  /** What one header adds; a compressed packet of unknown length is taken for a signed
      message if it comes first. */
  function Adds(r: Header, prevPartial: bool, skip: nat): set<Label> {
    if prevPartial || r.partial then {}
    else if r.tag == 8 then (if skip == 0 && r.bodyLen == -1 then {Signature, Unencrypted} else {})
    else LabelsOf(r.tag)
  }

  predicate GivesUp(r: Header, prevPartial: bool) {
    !prevPartial && !r.partial && (r.tag < 0 || r.tag > 19)
  }

  /** Every step goes on by at least one octet, or clears the partial flag, or is the
      last one. */
  lemma StepAdvances(h: Bytes, prevPartial: bool)
    ensures var r := Parse(h, prevPartial);
            && r.bodyLen >= -1
            && (r.bodyLen >= 0 && r.hdrLen + r.bodyLen == 0 ==> r == ILLEGAL)
            && (r.bodyLen == -1 ==> r.hdrLen == 1)
  {}

  function Walk(data: Bytes, skip: nat, partial: bool, found: set<Label>): Trace
    decreases if skip < |data| then |data| - skip else 0, partial
  {
    if skip >= |data| then Trace([], found)
    else
      var r := Parse(data[skip..], partial);
      StepAdvances(data[skip..], partial);
      if GivesUp(r, partial) then Trace([], {})
      else
        var next := skip + r.hdrLen + r.bodyLen;
        var found' := found + Adds(r, partial, skip);
        if r.bodyLen == -1 then Trace([next], found')
        else
          var rest := Walk(data, next, r.partial, found');
          Trace([next] + rest.stops, rest.found)
  }

  /** The kinds of object found in data that begins like a packet. */
  method Sniff(segment: Bytes) returns (found: set<Label>, ghost stops: seq<nat>)
    ensures found == Walk(segment, 0, false, {}).found
    ensures stops == Walk(segment, 0, false, {}).stops
  {
    hide Parse, Walk, Adds;
    found, stops := {}, [];
    var skip: nat, partial := 0, false;
    while skip < |segment|
      invariant Walked(stops, Walk(segment, skip, partial, found)) == Walk(segment, 0, false, {})
      decreases if skip < |segment| then |segment| - skip else 0, partial
    {
      var prevPartial := partial;
      var r := ParseHeader(segment[skip..], prevPartial);
      StepAdvances(segment[skip..], prevPartial);
      WalkStep(segment, skip, prevPartial, found, stops);
      partial := r.partial;
      var givesUp: bool;
      givesUp, found := NoteLabels(r, prevPartial, skip, found);
      if givesUp {
        return {}, stops;
      }
      skip := skip + r.hdrLen + r.bodyLen;
      stops := stops + [skip];
      if r.bodyLen == -1 {
        return;
      }
    }
    WalkEnds(segment, skip, partial, found, stops);
  }

  /** Note what kind of object a packet belongs to; give up if there is no such packet. */
  method NoteLabels(r: Header, prevPartial: bool, skip: nat, before: set<Label>) returns (givesUp: bool, found: set<Label>)
    ensures givesUp == GivesUp(r, prevPartial)
    ensures !givesUp ==> found == before + Adds(r, prevPartial, skip)
  {
    found, givesUp := before, false;
    if prevPartial || r.partial {
    } else if r.tag == 11 {
      found := found + {Unencrypted};
    } else if r.tag == 1 || r.tag == 9 || r.tag == 18 {
      found := found + {Encrypted};
    } else if r.tag == 2 || r.tag == 4 {
      found := found + {Signature};
    } else if r.tag == 6 || r.tag == 14 {
      found := found + {Key};
    } else if r.tag == 8 {
      if skip == 0 && r.bodyLen == -1 {
        found := found + {Signature, Unencrypted};
      }
    } else if r.tag < 0 || r.tag > 19 {
      givesUp := true;
    }
  }

  lemma WalkEnds(data: Bytes, skip: nat, partial: bool, found: set<Label>, stops: seq<nat>)
    requires skip >= |data|
    ensures Walked(stops, Walk(data, skip, partial, found)) == Trace(stops, found)
  {
    assert stops + [] == stops;
  }

  function Walked(stops: seq<nat>, t: Trace): Trace {
    Trace(stops + t.stops, t.found)
  }

  lemma WalkStep(data: Bytes, skip: nat, partial: bool, found: set<Label>, stops: seq<nat>)
    requires skip < |data|
    ensures var r := Parse(data[skip..], partial);
            r.bodyLen >= -1 && skip + r.hdrLen + r.bodyLen >= 0 &&
            var next := skip + r.hdrLen + r.bodyLen;
            var found' := found + Adds(r, partial, skip);
            Walked(stops, Walk(data, skip, partial, found)) ==
              if GivesUp(r, partial) then Trace(stops, {})
              else if r.bodyLen == -1 then Trace(stops + [next], found')
              else Walked(stops + [next], Walk(data, next, r.partial, found'))
  {
    hide Parse, Adds, GivesUp;
    StepAdvances(data[skip..], partial);
    var r := Parse(data[skip..], partial);
    var next := skip + r.hdrLen + r.bodyLen;
    assert stops + [] == stops;
    if r.bodyLen >= 0 {
      var rest := Walk(data, next, r.partial, found + Adds(r, partial, skip)).stops;
      assert stops + ([next] + rest) == stops + [next] + rest;
    }
  }

  // ----- Well-formed packets

  /** The ways to write a length in the new format. */
  datatype Form = OneOctet | TwoOctets | FiveOctets

  /** A packet, or a chunk of one: a whole packet in the old or new format, the first
      chunk of a packet, one in the middle, or the last one. */
  datatype Unit =
    | Old(tag: nat, lengthType: nat, body: Bytes)
    | New(tag: nat, form: Form, body: Bytes)
    | First(tag: nat, exponent: nat, body: Bytes)
    | Middle(exponent: nat, body: Bytes)
    | Last(form: Form, body: Bytes)

  predicate Fits(n: nat, form: Form) {
    match form
    case OneOctet => n < 192
    case TwoOctets => 192 <= n < 8384
    case FiveOctets => n < 0x1_0000_0000
  }

  predicate WellFormed(u: Unit) {
    match u
    case Old(tag, lengthType, body) =>
      tag < 16 && lengthType < 3 && |body| < [0x100, 0x1_0000, 0x1_0000_0000][lengthType]
    case New(tag, form, body) => tag < 64 && Fits(|body|, form)
    case First(tag, exponent, body) => tag in {8, 9, 11, 18} && exponent < 31 && |body| == Pow2(exponent)
    case Middle(exponent, body) => exponent < 31 && |body| == Pow2(exponent)
    case Last(form, body) => Fits(|body|, form)
  }

  /** The last n octets of a number, the most significant first. */
  function Octets(v: nat, n: nat): (h: Bytes)
    ensures |h| == n
  {
    if n == 0 then [] else Octets(v / 256, n - 1) + [v % 256]
  }

  function LengthOctets(n: nat, form: Form): Bytes
    requires Fits(n, form)
  {
    match form
    case OneOctet => [n]
    case TwoOctets => [(n - 192) / 256 + 192, (n - 192) % 256]
    case FiveOctets => [255] + Octets(n, 4)
  }

  function HeaderOctets(u: Unit): Bytes
    requires WellFormed(u)
  {
    match u
    case Old(tag, lengthType, body) => [128 + 4 * tag + lengthType] + Octets(|body|, Pow2(lengthType))
    case New(tag, form, body) => [192 + tag] + LengthOctets(|body|, form)
    case First(tag, exponent, _) => [192 + tag, 224 + exponent]
    case Middle(exponent, _) => [224 + exponent]
    case Last(form, body) => LengthOctets(|body|, form)
  }

  predicate Chunk(u: Unit) {
    u.Middle? || u.Last?
  }

  predicate Partial(u: Unit) {
    u.First? || u.Middle?
  }

  function UnitTag(u: Unit): nat {
    if Chunk(u) then 0 else u.tag
  }

  lemma {:induction false} NumberOfOctets(v: nat, n: nat, h: Bytes, i: nat)
    requires i + n <= |h| && h[i..i + n] == Octets(v, n)
    ensures Number(h, i, n) == v % Power256(n)
    decreases n
  {
    if n > 0 {
      var low := Octets(v / 256, n - 1);
      assert forall k :: 0 <= k < n ==> h[i + k] == h[i..i + n][k] == Octets(v, n)[k];
      assert forall k :: 0 <= k < n - 1 ==> Octets(v, n)[k] == low[k];
      assert h[i..i + (n - 1)] == low;
      NumberOfOctets(v / 256, n - 1, h, i);
      Positional(v, Power256(n - 1));
    }
  }

  function Power256(n: nat): (p: nat)
    ensures p > 0
  {
    if n == 0 then 1 else 256 * Power256(n - 1)
  }

  lemma Positional(v: nat, p: nat)
    requires p > 0
    ensures v / 256 % p * 256 + v % 256 == v % (256 * p)
  {
    var q, r := v / 256 / p, v / 256 % p;
    Division(v / 256, p);
    assert v == 256 * (v / 256) + v % 256;
    assert v == 256 * (q * p + r) + v % 256;
    assert 256 * (q * p + r) == q * (256 * p) + 256 * r;
    Remainder(v, q, 256 * r + v % 256, 256 * p);
  }

  lemma Division(v: nat, p: nat)
    requires p > 0
    ensures v == v / p * p + v % p && 0 <= v % p < p
  {}

  lemma Remainder(v: nat, q: nat, r: nat, p: nat)
    requires p > 0 && v == q * p + r && r < p
    ensures v % p == r
  {
    Division(v, p);
    var d := v / p - q;
    assert d * p == v / p * p - q * p;
    assert d * p == r - v % p;
  }

  lemma SmallRemainder(v: nat, p: nat)
    requires v < p
    ensures v % p == v
  {}

  lemma Powers()
    ensures Pow2(0) == 1 && Pow2(1) == 2 && Pow2(2) == 4
    ensures Power256(1) == 0x100 && Power256(2) == 0x1_0000 && Power256(4) == 0x1_0000_0000
  {}

  /** Reading a length that was written gives it back, whatever comes after it. */
  lemma ReadLength(front: Bytes, n: nat, form: Form, rest: Bytes, tag: nat)
    requires Fits(n, form)
    ensures NewLength(front + LengthOctets(n, form) + rest, |front|, tag)
            == Header(tag, |front| + |LengthOctets(n, form)|, n, false)
  {
    hide Power256, Number, Octets, Pow2;
    var h, k := front + LengthOctets(n, form) + rest, |front|;
    assert forall i :: 0 <= i < |LengthOctets(n, form)| ==> h[k + i] == LengthOctets(n, form)[i];
    match form
    case OneOctet =>
    case TwoOctets =>
      assert h[k] == LengthOctets(n, form)[0] && h[k + 1] == LengthOctets(n, form)[1];
    case FiveOctets =>
      ReadFourOctets(front, n, rest);
  }

  lemma ReadFourOctets(front: Bytes, n: nat, rest: Bytes)
    requires n < 0x1_0000_0000
    ensures Number(front + ([255] + Octets(n, 4)) + rest, |front| + 1, 4) == n
  {
    hide Number, Octets, Pow2;
    var h, k := front + ([255] + Octets(n, 4)) + rest, |front|;
    Powers();
    hide Power256;
    assert h[k + 1..k + 1 + 4] == Octets(n, 4);
    NumberOfOctets(n, 4, h, k + 1);
    SmallRemainder(n, 0x1_0000_0000);
  }

  /** A chunk length that was written is read back as a power of two. */
  lemma ReadChunkLength(front: Bytes, exponent: nat, rest: Bytes, tag: nat)
    requires exponent < 31
    ensures NewLength(front + [224 + exponent] + rest, |front|, tag) == Header(tag, |front| + 1, Pow2(exponent), true)
  {
    var h := front + [224 + exponent] + rest;
    assert h[|front|] == 224 + exponent;
    assert (224 + exponent) % 32 == exponent;
  }

  lemma ReadOldLength(tag: nat, lengthType: nat, n: nat, rest: Bytes)
    requires tag < 16 && lengthType < 3 && n < [0x100, 0x1_0000, 0x1_0000_0000][lengthType]
    ensures var h := [128 + 4 * tag + lengthType] + Octets(n, Pow2(lengthType)) + rest;
            Number(h, 1, Pow2(lengthType)) == n
  {
    var w := Pow2(lengthType);
    var h := [128 + 4 * tag + lengthType] + Octets(n, w) + rest;
    assert h[1..1 + w] == Octets(n, w);
    NumberOfOctets(n, w, h, 1);
    SmallRemainder(n, Power256(w));
  }

  lemma ParseOld(u: Unit, rest: Bytes)
    requires WellFormed(u) && u.Old?
    ensures Parse(HeaderOctets(u) + rest, false) == Header(u.tag, |HeaderOctets(u)|, |u.body|, false)
  {
    hide NewLength, Octets, Number, Pow2;
    var h := HeaderOctets(u) + rest;
    ReadOldLength(u.tag, u.lengthType, |u.body|, rest);
    assert h[0] == 128 + 4 * u.tag + u.lengthType;
  }

  lemma ParseNew(u: Unit, rest: Bytes)
    requires WellFormed(u) && u.New?
    ensures Parse(HeaderOctets(u) + rest, false) == Header(u.tag, |HeaderOctets(u)|, |u.body|, false)
  {
    hide NewLength, LengthOctets, OldLength;
    ReadLength([192 + u.tag], |u.body|, u.form, rest, u.tag);
    assert (HeaderOctets(u) + rest)[0] == 192 + u.tag;
  }

  lemma ParseFirst(u: Unit, rest: Bytes)
    requires WellFormed(u) && u.First?
    ensures Parse(HeaderOctets(u) + rest, false) == Header(u.tag, |HeaderOctets(u)|, |u.body|, true)
  {
    hide NewLength, OldLength, Pow2;
    ReadChunkLength([192 + u.tag], u.exponent, rest, u.tag);
    assert [192 + u.tag] + [224 + u.exponent] == HeaderOctets(u);
    assert (HeaderOctets(u) + rest)[0] == 192 + u.tag && u.tag < 64;
  }

  lemma ParseChunk(u: Unit, rest: Bytes)
    requires WellFormed(u) && Chunk(u)
    ensures Parse(HeaderOctets(u) + rest, true) == Header(0, |HeaderOctets(u)|, |u.body|, u.Middle?)
  {
    hide NewLength, LengthOctets, OldLength, Pow2;
    assert [] + HeaderOctets(u) + rest == HeaderOctets(u) + rest;
    if u.Middle? {
      ReadChunkLength([], u.exponent, rest, 0);
    } else {
      ReadLength([], |u.body|, u.form, rest, 0);
    }
  }

  /** The parser reads the header of every well-formed packet or chunk, whatever comes
      after it. */
  lemma ParseHeaderOctets(u: Unit, rest: Bytes)
    requires WellFormed(u)
    ensures Parse(HeaderOctets(u) + rest, Chunk(u)) == Header(UnitTag(u), |HeaderOctets(u)|, |u.body|, Partial(u))
  {
    hide Parse, HeaderOctets, WellFormed;
    match u
    case Old(_, _, _) => ParseOld(u, rest);
    case New(_, _, _) => ParseNew(u, rest);
    case First(_, _, _) => ParseFirst(u, rest);
    case _ => ParseChunk(u, rest);
  }

  // ----- Messages

  /** The octets of packets and chunks in order. */
  function Encoded(units: seq<Unit>): Bytes
    requires forall i :: 0 <= i < |units| ==> WellFormed(units[i])
  {
    if units == [] then [] else HeaderOctets(units[0]) + units[0].body + Encoded(units[1..])
  }

  function UnitSize(u: Unit): nat
    requires WellFormed(u)
  {
    |HeaderOctets(u)| + |u.body|
  }

  /** Where the packets and chunks end. */
  function Boundaries(units: seq<Unit>, start: nat): seq<nat>
    requires forall i :: 0 <= i < |units| ==> WellFormed(units[i])
  {
    if units == [] then [] else [start + UnitSize(units[0])] + Boundaries(units[1..], start + UnitSize(units[0]))
  }

  /** Chunks follow the first chunk of their packet, up to the last one. */
  predicate InSequence(units: seq<Unit>, partial: bool) {
    if units == [] then !partial
    else Chunk(units[0]) == partial && InSequence(units[1..], Partial(units[0]))
  }

  /** Packets of the kinds that are known, each complete, one after the other. */
  ghost predicate Message(units: seq<Unit>, partial: bool) {
    && (forall i :: 0 <= i < |units| ==> WellFormed(units[i]) && UnitTag(units[i]) <= 19)
    && InSequence(units, partial)
  }

  /** The kinds of the packets that are not in chunks. */
  function Kinds(units: seq<Unit>): set<Label> {
    if units == [] then {}
    else (if units[0].Old? || units[0].New? then (if units[0].tag == 8 then {} else LabelsOf(units[0].tag)) else {})
         + Kinds(units[1..])
  }

  /** Which packets say what; the tags are those of section 4.3 of RFC 4880. */
  predicate Says(tag: nat, l: Label) {
    match l
    case Unencrypted => tag == 11
    case Encrypted => tag in {1, 9, 18}
    case Signature => tag in {2, 4}
    case Key => tag in {6, 14}
  }

  ghost predicate Said(units: seq<Unit>, l: Label) {
    exists i :: 0 <= i < |units| && (units[i].Old? || units[i].New?) && Says(units[i].tag, l)
  }

  lemma {:induction false} KindsAreSaid(units: seq<Unit>, l: Label)
    ensures l in Kinds(units) <==> Said(units, l)
  {
    if units != [] {
      KindsAreSaid(units[1..], l);
      hide Says;
      SaysOfTag(units[0], l);
      assert units == [units[0]] + units[1..];
      assert forall i :: 0 < i < |units| ==> units[i] == units[1..][i - 1];
    }
  }

  lemma SaysOfTag(u: Unit, l: Label)
    ensures u.Old? || u.New? ==> (Says(u.tag, l) <==> u.tag != 8 && l in LabelsOf(u.tag))
  {}

  /** On any sequence of well-formed packets the walk stops exactly at the end of each
      packet and chunk, and reports exactly the kinds of the packets. */
  lemma {:induction false} WalkOfMessage(before: Bytes, units: seq<Unit>, partial: bool, found: set<Label>)
    requires Message(units, partial)
    ensures Walk(before + Encoded(units), |before|, partial, found)
            == Trace(Boundaries(units, |before|), found + Kinds(units))
    decreases |units|
  {
    hide Parse, HeaderOctets, WellFormed, Walk, Adds, GivesUp, Kinds, Message, Encoded, Boundaries, InSequence;
    FirstUnit(units, partial, |before|);
    var data := before + Encoded(units);
    if units == [] {
      WalkEnds(data, |before|, partial, found, []);
      NoKinds(found);
    } else {
      var u, rest := units[0], Encoded(units[1..]);
      var after := before + (HeaderOctets(u) + u.body);
      assert data == after + rest;
      assert data[|before|..] == HeaderOctets(u) + (u.body + rest);
      ParseHeaderOctets(u, u.body + rest);
      WalkStep(data, |before|, partial, found, []);
      assert [] + [|after|] == [|after|];
      WalkOfMessage(after, units[1..], Partial(u), found + Adds(Parse(data[|before|..], partial), partial, |before|));
      UnitKinds(u, found, units[1..], |before|);
    }
  }

  /** What a message is: its first packet or chunk, and the rest. */
  lemma FirstUnit(units: seq<Unit>, partial: bool, start: nat)
    requires Message(units, partial)
    ensures forall i :: 0 <= i < |units| ==> WellFormed(units[i])
    ensures units == [] ==> Encoded(units) == [] && Boundaries(units, start) == []
    ensures units != [] ==>
      var u := units[0];
      && units == [u] + units[1..] && Chunk(u) == partial && UnitTag(u) <= 19 && Message(units[1..], Partial(u))
      && (forall i :: 0 <= i < |units[1..]| ==> WellFormed(units[1..][i]))
      && |HeaderOctets(u)| > 0 && Encoded(units) == HeaderOctets(u) + u.body + Encoded(units[1..])
      && Boundaries(units, start) == [start + UnitSize(u)] + Boundaries(units[1..], start + UnitSize(u))
  {
    if units != [] { HeaderIsNotEmpty(units[0]); }
    hide HeaderOctets, WellFormed;
  }

  lemma NoKinds(found: set<Label>)
    ensures found + Kinds([]) == found
  {}

  lemma HeaderIsNotEmpty(u: Unit)
    requires WellFormed(u)
    ensures |HeaderOctets(u)| > 0
  {}

  lemma UnitKinds(u: Unit, found: set<Label>, rest: seq<Unit>, skip: nat)
    requires WellFormed(u) && UnitTag(u) <= 19
    ensures var r := Header(UnitTag(u), |HeaderOctets(u)|, |u.body|, Partial(u));
            && !GivesUp(r, Chunk(u))
            && found + Adds(r, Chunk(u), skip) + Kinds(rest) == found + Kinds([u] + rest)
  {
    hide HeaderOctets, WellFormed;
    assert ([u] + rest)[1..] == rest;
  }

  /** The whole message. */
  lemma WalkOfWholeMessage(units: seq<Unit>)
    requires Message(units, false)
    ensures Walk(Encoded(units), 0, false, {}) == Trace(Boundaries(units, 0), Kinds(units))
    ensures forall l :: l in Walk(Encoded(units), 0, false, {}).found <==> Said(units, l)
  {
    hide Walk, Encoded, Boundaries, Kinds, Said, WellFormed, InSequence;
    WalkOfMessage([], units, false, {});
    forall l ensures l in Kinds(units) <==> Said(units, l) { KindsAreSaid(units, l); }
    assert [] + Encoded(units) == Encoded(units);
    assert {} + Kinds(units) == Kinds(units);
  }
}
