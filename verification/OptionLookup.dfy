/** What the option getters return: references into the packet buffer, and the
    specification of iterating over options and of looking one up by number. */
module OptionLookup {
  import opened Bytes
  import opened CoapFormat
  import opened OptionCodec
  import opened MessageEdits
  import Seqs

  /** A pointer into the packet buffer. */
  datatype Ptr = Null | At(pos: nat)

  /** An option as the getters return it. `Wild` is the result with number 0
      whose length and pointer the C code computes from a null pointer. */
  datatype OptRef = OptRef(num: nat, len: nat, val: Ptr) | Wild {
    function Num(): nat {
      if Wild? then 0 else num
    }
  }

  const NOTHING := OptRef(0, 0, Null)

  /** The reference to option k. */
  function RefAt(m: Message, k: nat): OptRef
    requires ValidMessage(m) && k < |m.options|
  {
    SuffixStep(m, k);
    OptRef(m.options[k].num, |m.options[k].value|, At(Position(m, k + 1) - |m.options[k].value|))
  }

  /** What asking for option k gives, also when the options have ended. */
  function OptionAt(m: Message, k: nat): OptRef
    requires ValidMessage(m) && k <= |m.options|
  {
    if k < |m.options| then RefAt(m, k)
    else if m.payload == [] then NOTHING
    else if k == 0 then OptRef(0, |m.payload|, At(Position(m, 0) + 1))
    else Wild
  }

  /** The indices of the options numbered num, in order. */
  function Indices(opts: seq<Opt>, num: nat): (s: seq<nat>)
    ensures forall i :: 0 <= i < |s| ==> s[i] < |opts| && opts[s[i]].num == num
  {
    if opts == [] then []
    else
      var n := |opts| - 1;
      Indices(opts[..n], num) + (if opts[n].num == num then [n] else [])
  }

  /** The indices come in increasing order and leave none out. */
  lemma {:induction false} IndicesExact(opts: seq<Opt>, num: nat)
    ensures var s := Indices(opts, num);
            && (forall i, j :: 0 <= i < j < |s| ==> s[i] < s[j])
            && (forall k :: 0 <= k < |opts| ==> (opts[k].num == num <==> k in s))
  {
    if opts != [] {
      var n := |opts| - 1;
      IndicesExact(opts[..n], num);
      var before, s := Indices(opts[..n], num), Indices(opts, num);
      assert opts[n].num == num ==> s[|before|] == n;
      assert forall k :: 0 <= k < n ==> opts[k] == opts[..n][k];
    }
  }

  /** The first option has number 0, which the iterator takes for the end. */
  predicate StartsWithZero(m: Message) {
    m.options != [] && m.options[0].num == 0
  }

  /** Looking up the occ-th option numbered num: that option if it exists;
      occurrence 255 is never found because the 8-bit counter wraps. */
  function Lookup(m: Message, num: nat, occ: byte): OptRef
    requires ValidMessage(m)
  {
    var found := Indices(m.options, num);
    if StartsWithZero(m) then RefAt(m, 0)
    else if occ < 255 && occ as int < |found| then RefAt(m, found[occ])
    else if InsertAt(m.options, num) < |m.options| then NOTHING
    else OptionAt(m, |m.options|)
  }

  lemma {:induction false} IndicesPrefix(opts: seq<Opt>, num: nat, k: nat)
    requires k <= |opts|
    ensures |Indices(opts[..k], num)| <= |Indices(opts, num)|
    ensures Indices(opts[..k], num) == Indices(opts, num)[..|Indices(opts[..k], num)|]
  {
    var n := |opts| - 1;
    if k == |opts| {
      assert opts[..k] == opts;
    } else {
      IndicesPrefix(opts[..n], num, k);
      assert opts[..n][..k] == opts[..k];
    }
  }

  lemma {:induction false} IndicesNoMore(opts: seq<Opt>, num: nat, k: nat)
    requires k <= |opts| && forall j :: k <= j < |opts| ==> opts[j].num != num
    ensures Indices(opts, num) == Indices(opts[..k], num)
  {
    var n := |opts| - 1;
    if k == |opts| {
      assert opts[..k] == opts;
    } else {
      IndicesNoMore(opts[..n], num, k);
      assert opts[..n][..k] == opts[..k];
    }
  }

  // ----------------------------------------------------------- the iterator

  /** Where the iterator continues after `last`. */
  lemma LastEnds(m: Message, k: nat, last: OptRef)
    requires ValidMessage(m) && k <= |m.options|
    requires if last.Num() == 0 then k == 0 else k > 0 && last == RefAt(m, k - 1)
    ensures last.Num() == 0 ==> NumBefore(m, k) == 0
    ensures last.Num() != 0 ==>
              && last.OptRef? && last.num == last.Num() == NumBefore(m, k)
              && last.val.At? && last.val.pos + last.len == Position(m, k) > 0
  {
  }

  lemma PositionInside(m: Message, k: nat)
    requires ValidMessage(m) && k <= |m.options|
    ensures 0 < Position(m, k) <= |Encode(m)|
  {
    EncodeAt(m, k);
  }

  /** The iterator's answer from the decoder's. */
  lemma OptionAnswered(m: Message, k: nat, d: Decoded, len: nat)
    requires ValidMessage(m) && k <= |m.options| && len == |Encode(m)|
    requires d.Found? <==> k < |m.options|
    requires k > 0 ==> NumBefore(m, k) != 0
    requires d.Found? ==> && NumBefore(m, k) + d.delta == NumBefore(m, k + 1)
                          && d.len == |m.options[k].value| && d.val + d.len == Position(m, k + 1)
    requires d.Stop? ==> d.err == if m.payload == [] then EndOfPacket else FoundPayloadMarker
    ensures OptionAt(m, k)
            == match d
               case Found(_, n, val) => OptRef(NumBefore(m, k) + d.delta, n, At(val))
               case Stop(FoundPayloadMarker) =>
                 if NumBefore(m, k) == 0 then OptRef(0, len - Position(m, k) - 1, At(Position(m, k) + 1)) else Wild
               case _ => NOTHING
    ensures d == Stop(FoundPayloadMarker) ==> len - Position(m, k) - 1 >= 0
  {
    PayloadSize(m);
    hide Encode, Position;
  }

  // ------------------------------------------------------ the lookup's loop

  /** All options before k have been passed: they are numbered 1 to num, fewer
      than occ + 1 of them num, and i counts those modulo 256. */
  ghost predicate SearchState(m: Message, num: nat, occ: byte, k: nat, i: nat)
    requires k <= |m.options|
  {
    && (forall j :: 0 <= j < k ==> 1 <= m.options[j].num <= num)
    && i == |Indices(m.options[..k], num)| % 256
    && (occ < 255 ==> |Indices(m.options[..k], num)| <= occ as int)
  }

  /** One turn of the loop: either the answer is settled, or one more option has
      been passed. */
  lemma SearchStep(m: Message, num: nat, occ: byte, k: nat, i: nat)
    requires ValidMessage(m) && num >= 1 && k <= |m.options| && SearchState(m, num, occ, k, i)
    ensures var r := OptionAt(m, k);
            var i' := if r.Num() == num then (i + 1) % 256 else i;
            && (r.Num() > num ==> Lookup(m, num, occ) == NOTHING)
            && (r.Num() == 0 ==> Lookup(m, num, occ) == r)
            && (1 <= r.Num() <= num && i' > occ as int ==> Lookup(m, num, occ) == r)
            && (1 <= r.Num() <= num && i' <= occ as int ==>
                  k < |m.options| && r == RefAt(m, k) && SearchState(m, num, occ, k + 1, i'))
  {
    var r := OptionAt(m, k);
    if k == |m.options| {
      assert m.options[..k] == m.options;
      assert !StartsWithZero(m);
      InsertAtUnique(m.options, num, k);
    } else if r.Num() > num {
      InsertAtUnique(m.options, num, k);
      LaterGreater(m, num, k);
      IndicesNoMore(m.options, num, k);
      assert !StartsWithZero(m) by { assert k > 0 ==> m.options[0].num >= 1; }
    } else if r.Num() == 0 {
      ZeroFirst(m, k);
    } else {
      SearchPassed(m, num, occ, k, i);
    }
  }

  lemma LaterGreater(m: Message, num: nat, k: nat)
    requires ValidMessage(m) && k < |m.options| && m.options[k].num > num
    ensures forall j :: k <= j < |m.options| ==> m.options[j].num > num
  {
    SortedFrom(m, k + 1);
    SortedBound(m.options[k].num, m.options[k + 1..]);
    assert forall j :: k < j < |m.options| ==> m.options[j] == m.options[k + 1..][j - k - 1];
  }

  /** Number 0 can only come first. */
  lemma ZeroFirst(m: Message, k: nat)
    requires ValidMessage(m) && k < |m.options| && m.options[k].num == 0
    requires forall j :: 0 <= j < k ==> 1 <= m.options[j].num
    ensures k == 0
  {
    if k > 0 {
      LaterGreater(m, 0, k - 1);
    }
  }

  lemma SearchPassed(m: Message, num: nat, occ: byte, k: nat, i: nat)
    requires ValidMessage(m) && k < |m.options| && SearchState(m, num, occ, k, i)
    requires 1 <= m.options[k].num <= num
    ensures var i' := if m.options[k].num == num then (i + 1) % 256 else i;
            && (i' > occ as int ==> Lookup(m, num, occ) == RefAt(m, k))
            && (i' <= occ as int ==> SearchState(m, num, occ, k + 1, i'))
  {
    hide RefAt, InsertAt, OptionAt, ValidMessage, Indices;
    IndicesNext(m.options, num, k);
    assert !StartsWithZero(m) by { assert k > 0 ==> m.options[0].num >= 1; }
  }

  /** The indices among the first k + 1 options. */
  lemma IndicesNext(opts: seq<Opt>, num: nat, k: nat)
    requires k < |opts|
    ensures var before, after := Indices(opts[..k], num), Indices(opts[..k + 1], num);
            && after == before + (if opts[k].num == num then [k] else [])
            && |after| <= |Indices(opts, num)|
            && (opts[k].num == num ==> |before| < |Indices(opts, num)| && Indices(opts, num)[|before|] == k)
  {
    assert opts[..k + 1][..k] == opts[..k];
    IndicesPrefix(opts, num, k + 1);
    var before, after := Indices(opts[..k], num), Indices(opts[..k + 1], num);
    if opts[k].num == num {
      assert after[|before|] == k;
    }
  }

  lemma SearchStart(m: Message, num: nat, occ: byte)
    ensures SearchState(m, num, occ, 0, 0) && Passing(m, 0, NOTHING)
  {
    assert m.options[..0] == [];
  }

  /** The reference that the loop holds when it asks for option k. */
  predicate Passing(m: Message, k: nat, r: OptRef) {
    if k == 0 then r == NOTHING else ValidMessage(m) && k <= |m.options| && r == RefAt(m, k - 1) && r.Num() != 0
  }

  lemma PassingLast(m: Message, k: nat, r: OptRef)
    requires Passing(m, k, r) && ValidMessage(m) && k <= |m.options|
    ensures if r.Num() == 0 then k == 0 else k > 0 && r == RefAt(m, k - 1)
  {
    hide RefAt, ValidMessage;
  }

  lemma PassingNext(m: Message, k: nat, r: OptRef)
    requires ValidMessage(m) && k < |m.options| && r == RefAt(m, k) && r.Num() != 0
    ensures Passing(m, k + 1, r)
  {
    hide RefAt, ValidMessage;
  }

  // --------------------------------------------------------------- payload

  /** The payload lies behind its marker at the end of the packet. */
  lemma PayloadBytes(buf: seq<byte>, m: Message)
    requires Holds(buf, m)
    ensures var p, n := Position(m, |m.options|), |Encode(m)|;
            && n == p + (if m.payload == [] then 0 else 1 + |m.payload|)
            && n <= |buf|
            && (m.payload != [] ==> buf[p + 1..n] == m.payload)
  {
    BytesAt(buf, m, |m.options|);
    SuffixEnd(m);
    var p, n := Position(m, |m.options|), |Encode(m)|;
    if m.payload == [] {
      hide *;
    } else {
      var tail := [PAYLOAD_MARKER] + m.payload;
      assert buf[p..n] == tail && n <= |buf|;
      hide *;
      Seqs.Split([PAYLOAD_MARKER], m.payload);
      Seqs.Slice(buf, p, n, 1, n - p);
      assert tail[1..|tail|] == tail[1..];
    }
  }

  /** A walk over the options stands at option k, having counted to num. */
  ghost predicate AtOption(m: Message, k: nat, p: nat, num: nat) {
    ValidMessage(m) && k <= |m.options| && p == Position(m, k) && num == NumBefore(m, k)
  }

  lemma AtPosition(m: Message, k: nat, p: nat, num: nat)
    requires AtOption(m, k, p, num)
    ensures ValidMessage(m) && k <= |m.options| && p == Position(m, k) && num == NumBefore(m, k)
  {
    hide Position, ValidMessage;
  }

  lemma AtOptionIs(m: Message, k: nat, p: nat, num: nat)
    requires ValidMessage(m) && k <= |m.options| && p == Position(m, k) && num == NumBefore(m, k)
    ensures AtOption(m, k, p, num)
  {
    hide Position, ValidMessage;
  }

  /** How the walk over the options ends. */
  function EndOfOptions(m: Message): Error {
    if m.payload == [] then EndOfPacket else FoundPayloadMarker
  }

  /** The payload as the getter finds it at the end of the options. */
  lemma PayloadAtEnd(buf: seq<byte>, m: Message)
    requires Holds(buf, m)
    ensures ValidMessage(m)
    ensures var p, n := Position(m, |m.options|), |Encode(m)|;
            && (EndOfOptions(m) == FoundPayloadMarker <==> m.payload != [])
            && (m.payload != [] ==> p + 1 + |m.payload| == n <= |buf| && buf[p + 1..n] == m.payload)
  {
    PayloadBytes(buf, m);
    hide Encode, Position;
  }

  lemma PayloadSize(m: Message)
    requires ValidMessage(m)
    ensures |Encode(m)| == Position(m, |m.options|) + (if m.payload == [] then 0 else 1 + |m.payload|)
  {
    EncodeAt(m, |m.options|);
    SuffixEnd(m);
  }

  // ------------------------------------------------------------ validation

  /** The fixed header passes: length, version and token length. */
  predicate HeaderAccepted(buf: seq<byte>, len: nat) {
    HEADER_SIZE <= len <= |buf| && buf[0] as int / 64 == 1 && buf[0] as int % 16 <= MAX_TOKEN
  }

  /** Where the options start. */
  function OptionsStart(buf: seq<byte>): nat
    requires buf != []
  {
    HEADER_SIZE + buf[0] as int % 16
  }

  /** The bytes that validation reads lie inside the buffer. */
  predicate Checkable(buf: seq<byte>, len: nat) {
    HeaderAccepted(buf, len) ==> len == OptionsStart(buf) || Readable(buf, OptionsStart(buf))
  }

  /** What packet validation accepts, byte by byte. */
  predicate Accepted(buf: seq<byte>, len: nat) {
    && HeaderAccepted(buf, len)
    && (len == OptionsStart(buf) ||
        (&& OptionsStart(buf) < |buf|
         && var b := buf[OptionsStart(buf)];
         b == PAYLOAD_MARKER || (b as int / 16 != 15 && b as int % 16 != 15)))
  }

  /** Validation never rejects a well-formed packet. */
  lemma ValidAccepted(buf: seq<byte>, m: Message)
    requires Holds(buf, m)
    ensures Checkable(buf, |Encode(m)|) && Accepted(buf, |Encode(m)|)
  {
    EncodeLayout(m);
    HeaderFields(m);
    assert buf[0] == buf[..|Encode(m)|][0];
    assert Position(m, 0) == HEADER_SIZE + |m.token|;
    ScanStep(buf, m, 0);
    hide Encode, Answer, Position;
  }

  /** Validation accepts packets that are not well formed: a payload marker
      with nothing behind it, a token cut short, and an option value that runs
      past the end of the packet. */
  lemma AcceptsMalformed(rest: seq<byte>)
    requires |rest| >= 17 && rest[8] == 0
    ensures Accepted([0x40, 0, 0, 0, 0xFF] + rest, 5) && !WellFormed([0x40, 0, 0, 0, 0xFF])
    ensures Accepted([0x48, 0, 0, 0] + rest, 4) && !WellFormed([0x48, 0, 0, 0])
    ensures Accepted([0x40, 0, 0, 0, 0x12, 7] + rest, 6) && !WellFormed([0x40, 0, 0, 0, 0x12, 7])
  {
    var a: seq<byte> := [0x40, 0, 0, 0, 0xFF];
    assert a[HEADER_SIZE..] == [0xFF];
    assert ParseTail(0, [0xFF]).None?;
    var b: seq<byte> := [0x40, 0, 0, 0, 0x12, 7];
    assert b[HEADER_SIZE..] == [0x12, 7];
    assert ParseOption(0, [0x12, 7]).None?;
  }
}
