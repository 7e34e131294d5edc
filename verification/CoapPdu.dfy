/** The in-place packet editor of picocoap/src/coap.c: a byte buffer and a
    length, with no side structure. A packet's meaning is what its bytes parse
    to, and every setter is proved to be the corresponding change of meaning. */
module CoapPdu {
  import opened Bytes
  import opened CoapFormat
  import opened OptionCodec
  import opened MessageEdits
  import opened PduEdits
  import opened Recount
  import opened OptionLookup
  import Seqs

  /** `memmove`: the regions may overlap. */
  method Memmove(a: array<byte>, dst: nat, src: nat, n: nat)
    requires dst + n <= a.Length && src + n <= a.Length
    modifies a
    ensures a[..] == Seqs.Splice(old(a[..]), dst, old(a[src..src + n]))
  {
    ghost var piece := a[src..src + n];
    assert forall i :: 0 <= i < n ==> piece[i] == a[src + i];
    forall i | 0 <= i < n {
      a[dst + i] := a[src + i];
    }
    Seqs.SpliceIs(old(a[..]), dst, piece, a[..]);
    hide *;
  }

  /** `memcpy` from memory outside the buffer. */
  method Memcpy(a: array<byte>, dst: nat, s: seq<byte>)
    requires dst + |s| <= a.Length
    modifies a
    ensures a[..] == Seqs.Splice(old(a[..]), dst, s)
  {
    forall i | 0 <= i < |s| {
      a[dst + i] := s[i];
    }
  }

  /** Writes an extended field's extension bytes, if they fit below `limit`. */
  method BuildExtension(a: array<byte>, at: nat, limit: nat, x: nat) returns (ok: bool, end: nat, nibble: nat)
    requires x < 0x1_0000 && at <= limit <= a.Length
    modifies a
    ensures ok <==> at + |Extension(x)| <= limit
    ensures ok ==> end == at + |Extension(x)| && nibble == Nibble(x)
    ensures ok ==> a[..] == Seqs.Splice(old(a[..]), at, Extension(x))
    ensures !ok ==> a[..] == old(a[..])
  {
    ok, end := true, at;
    if x < 13 {
      nibble := x;
    } else if x < 269 {
      nibble := 13;
      if limit < at + 1 {
        return false, at, nibble;
      }
      a[at] := (x - 13) as byte;
      end := at + 1;
    } else {
      nibble := 14;
      if limit < at + 2 {
        return false, at, nibble;
      }
      a[at] := ((x - 269) / 256) as byte;
      a[at + 1] := ((x - 269) % 256) as byte;
      end := at + 2;
    }
  }

  /** Writes an option header at `at`. Success means that it fits `maxLen`;
      otherwise at most the bytes after the first of those maxLen change. */
  method BuildOptionHeader(a: array<byte>, at: nat, maxLen: nat, delta: nat, len: nat) returns (ok: bool, n: nat)
    requires delta < 0x1_0000 && len < 0x1_0000 && at + maxLen <= a.Length
    modifies a
    ensures ok <==> HeaderLen(delta, len) <= maxLen
    ensures ok ==> n == HeaderLen(delta, len)
    ensures ok ==> a[..] == Seqs.Splice(old(a[..]), at, OptionHeader(delta, len))
    ensures !ok ==> forall i :: 0 <= i < a.Length && !(at < i < at + maxLen) ==> a[i] == old(a[i])
  {
    n := 0;
    if maxLen < 1 {
      return false, 0;
    }
    ghost var before := a[..];
    var end, deltaNibble, lenNibble;
    ok, end, deltaNibble := BuildExtension(a, at + 1, at + maxLen, delta);
    if !ok {
      return;
    }
    ghost var mid := a[..];
    ok, end, lenNibble := BuildExtension(a, end, at + maxLen, len);
    if !ok {
      return;
    }
    ghost var late := a[..];
    a[at] := (16 * deltaNibble + lenNibble) as byte;
    n := end - at;
    HeaderPieces(before, mid, late, at, delta, len);
  }

  class Pdu {
    const buf: array<byte>
    var len: nat

    constructor (max: nat)
      ensures fresh(buf) && buf.Length == max && len == 0
    {
      buf := new byte[max];
      len := 0;
    }

    /** The packet is a well-formed CoAP message. */
    ghost predicate Valid()
      reads this, buf
    {
      len <= buf.Length && WellFormed(buf[..len])
    }

    /** The message the packet means. */
    ghost function Msg(): Message
      requires Valid()
      reads this, buf
    {
      Parse(buf[..len]).value
    }

    /** A valid packet is exactly the encoding of its message. */
    lemma Meaning()
      requires Valid()
      ensures ValidMessage(Msg()) && len == |Encode(Msg())| && buf[..len] == Encode(Msg())
      ensures Holds(buf[..], Msg())
    {
      EncodeOfParse(buf[..len]);
      assert buf[..][..len] == buf[..len];
    }

    /** A buffer that starts with the encoding of m means m. */
    lemma Means(m: Message)
      requires ValidMessage(m) && len == |Encode(m)| <= buf.Length && buf[..len] == Encode(m)
      ensures Valid() && Msg() == m
    {
      ParseOfEncode(m);
    }

    // ------------------------------------------------- fixed-header getters

    function GetVersion(): (v: nat)
      requires buf.Length >= 1
      reads this, buf
      ensures Valid() ==> v == 1
    {
      buf[0] as int / 64
    }

    function GetType(): (t: nat)
      requires buf.Length >= 1
      reads this, buf
      ensures Valid() ==> t == Msg().typ
    {
      buf[0] as int / 16 % 4
    }

    function GetTkl(): (n: nat)
      requires buf.Length >= 1
      reads this, buf
      ensures n < 16
      ensures Valid() ==> n == |Msg().token|
    {
      buf[0] as int % 16
    }

    function GetCode(): (c: byte)
      requires buf.Length >= 2
      reads this, buf
      ensures Valid() ==> c == Msg().code
    {
      buf[1]
    }

    function GetCodeClass(): (c: nat)
      requires buf.Length >= 2
      reads this, buf
      ensures Valid() ==> c == Msg().code as int / 32
    {
      GetCode() as int / 32
    }

    function GetMid(): (mid: u16)
      requires buf.Length >= 4
      reads this, buf
      ensures Valid() ==> mid == Msg().mid
    {
      256 * buf[2] as int + buf[3] as int
    }

    /** The getters read the first bytes of the packet, well formed or not. */
    lemma RawFields(s: seq<byte>)
      requires HEADER_SIZE <= len <= buf.Length && buf[..len] == s
      ensures GetTkl() == s[0] as int % 16 && GetMid() == 256 * s[2] as int + s[3] as int
    {
      assert buf[0] == s[0] && buf[2] == s[2] && buf[3] == s[3];
    }

    /** The token as an integer; 0 if the packet is too short for its token. */
    method GetToken() returns (token: nat)
      requires len <= buf.Length && buf.Length >= 1
      ensures len < HEADER_SIZE + GetTkl() ==> token == 0
      ensures len >= HEADER_SIZE + GetTkl() ==>
                token == LittleEndianValue(buf[..len][HEADER_SIZE..HEADER_SIZE + GetTkl()])
      ensures Valid() ==> token == LittleEndianValue(Msg().token)
    {
      var tkl := GetTkl();
      if len < HEADER_SIZE + tkl {
        return 0;
      }
      token := LittleEndianValue(buf[HEADER_SIZE..HEADER_SIZE + tkl]);
      Seqs.Slice(buf[..], 0, len, HEADER_SIZE, HEADER_SIZE + tkl);
      assert buf[..][..len] == buf[..len];
    }

    // ------------------------------------------------- fixed-header setters

    method SetVersion(ver: nat) returns (r: Error)
      requires len <= buf.Length && ver < 4
      modifies this`len, buf
      ensures r == if buf.Length < 1 then InsufficientBuffer else NoError
      ensures r == NoError ==> len == (if old(len) < 1 then 1 else old(len))
      ensures r == NoError ==> buf[..] == old(buf[..])[0 := (64 * ver + old(buf[0]) as int % 64) as byte]
      ensures r != NoError ==> len == old(len) && buf[..] == old(buf[..])
      ensures old(Valid()) && ver == 1 ==> Valid() && Msg() == old(Msg())
    {
      if buf.Length < 1 {
        return InsufficientBuffer;
      }
      buf[0] := (64 * ver + buf[0] as int % 64) as byte;
      if len < 1 {
        len := 1;
      }
      if old(Valid()) && ver == 1 {
        assert buf[..len] == old(buf[..len]);
      }
      return NoError;
    }

    method SetType(t: nat) returns (r: Error)
      requires len <= buf.Length && t < 4
      modifies this`len, buf
      ensures r == if buf.Length < 1 then InsufficientBuffer else NoError
      ensures r == NoError ==> len == (if old(len) < 1 then 1 else old(len))
      ensures r == NoError ==>
                buf[..] == old(buf[..])[0 := (64 * (old(buf[0]) as int / 64) + 16 * t + old(buf[0]) as int % 16) as byte]
      ensures r != NoError ==> len == old(len) && buf[..] == old(buf[..])
      ensures old(Valid()) ==> Valid() && Msg() == old(Msg()).(typ := t)
    {
      if buf.Length < 1 {
        return InsufficientBuffer;
      }
      buf[0] := (64 * (buf[0] as int / 64) + 16 * t + buf[0] as int % 16) as byte;
      if len < 1 {
        len := 1;
      }
      if old(Valid()) {
        Reheadered(old(buf[..len]), old(Msg()), old(Msg()).(typ := t));
      }
      return NoError;
    }

    method SetCode(code: byte) returns (r: Error)
      requires len <= buf.Length
      modifies this`len, buf
      ensures r == if buf.Length < 2 then InsufficientBuffer else NoError
      ensures r == NoError ==> len == (if old(len) < 2 then 2 else old(len))
      ensures r == NoError ==> buf[..] == old(buf[..])[1 := code]
      ensures r != NoError ==> len == old(len) && buf[..] == old(buf[..])
      ensures old(Valid()) ==> Valid() && Msg() == old(Msg()).(code := code)
    {
      if buf.Length < 2 {
        return InsufficientBuffer;
      }
      buf[1] := code;
      if len < 2 {
        len := 2;
      }
      if old(Valid()) {
        Reheadered(old(buf[..len]), old(Msg()), old(Msg()).(code := code));
      }
      return NoError;
    }

    method SetMid(mid: u16) returns (r: Error)
      requires len <= buf.Length
      modifies this`len, buf
      ensures r == if buf.Length < 4 then InsufficientBuffer else NoError
      ensures r == NoError ==> len == (if old(len) < 4 then 4 else old(len))
      ensures r == NoError ==> buf[..] == old(buf[..])[2 := (mid / 256) as byte][3 := (mid % 256) as byte]
      ensures r != NoError ==> len == old(len) && buf[..] == old(buf[..])
      ensures old(Valid()) ==> Valid() && Msg() == old(Msg()).(mid := mid)
    {
      if buf.Length < 4 {
        return InsufficientBuffer;
      }
      ghost var s := buf[..len];
      if Valid() {
        MidHeader(s, Msg(), mid);
      }
      hide Parse, Header, ValidMessage;
      buf[2] := (mid / 256) as byte;
      buf[3] := (mid % 256) as byte;
      if len < 4 {
        len := 4;
      }
      if old(Valid()) {
        Reheadered(s, old(Msg()), old(Msg()).(mid := mid));
      }
      return NoError;
    }

    /** The fixed header of a packet with another message id. */
    static lemma MidHeader(s: seq<byte>, m: Message, mid: u16)
      requires Parse(s) == Some(m)
      ensures |s| >= HEADER_SIZE && ValidMessage(m) && ValidMessage(m.(mid := mid)) && m.typ <= 3
      ensures var h := Header(m.(mid := mid));
              h[0] == s[0] && h[1] == s[1] && h[2] == (mid / 256) as byte && h[3] == (mid % 256) as byte
    {
      EncodeOfParse(s);
      EncodeLayout(m);
      hide Parse, Encode;
    }

    /** The buffer with a new fixed header in front of the old bytes. */
    lemma Reheadered(s: seq<byte>, m: Message, m': Message)
      requires Parse(s) == Some(m) && len == |s| <= buf.Length
      requires m'.typ <= 3 && m'.token == m.token && m'.options == m.options && m'.payload == m.payload
      requires forall i :: HEADER_SIZE <= i < len ==> buf[i] == s[i]
      requires ValidMessage(m) ==>
                 buf[0] == Header(m')[0] && buf[1] == Header(m')[1] && buf[2] == Header(m')[2] && buf[3] == Header(m')[3]
      ensures Valid() && Msg() == m'
    {
      hide Parse, Encode, Header, Sorted;
      EncodeOfParse(s);
      assert buf[..len][HEADER_SIZE..] == s[HEADER_SIZE..];
      assert buf[..len][..HEADER_SIZE] == Header(m');
      Reheader(s, buf[..len], m, m');
    }

    // ----------------------------------------------------------------- token

    /** Replaces the token, moving the rest of the packet to make or take room. */
    method SetToken(token: nat, tkl: nat) returns (r: Error)
      requires 1 <= buf.Length && len <= buf.Length
      requires len >= HEADER_SIZE + GetTkl() || (len < HEADER_SIZE && GetTkl() == 0)
      modifies this`len, buf
      ensures r == if buf.Length < HEADER_SIZE + tkl then InsufficientBuffer
                   else if tkl > MAX_TOKEN then InvalidPacket
                   else if old(len) > HEADER_SIZE && buf.Length < old(len) - old(GetTkl()) + tkl then InsufficientBuffer
                   else NoError
      ensures r == NoError && old(len) >= HEADER_SIZE ==>
                len <= buf.Length && buf[..len] == Retoken(old(buf[..len]), token, tkl)
      ensures r == NoError && old(len) < HEADER_SIZE && tkl == 0 ==> len == old(len) && buf[..] == old(buf[..])
      ensures r != NoError ==> len == old(len) && buf[..] == old(buf[..])
      ensures old(Valid()) ==>
                var m := old(Msg()).(token := LittleEndian(token, tkl));
                && (r == NoError <==> ValidMessage(m) && |Encode(m)| <= buf.Length)
                && (r == NoError ==> Valid() && Msg() == m)
    {
      if Valid() {
        Meaning();
        TokenSize(Msg(), token, tkl);
      }
      hide Encode, ValidMessage, Parse, Retoken, LittleEndian, Holds;
      if buf.Length < HEADER_SIZE + tkl {
        return InsufficientBuffer;
      }
      if tkl > MAX_TOKEN {
        return InvalidPacket;
      }
      if len > HEADER_SIZE && buf.Length < len + tkl - GetTkl() {
        return InsufficientBuffer;
      }
      ReplaceToken(token, tkl);
      if old(Valid()) {
        RetokenMeaning(old(buf[..len]), old(Msg()), token, tkl);
        Means(old(Msg()).(token := LittleEndian(token, tkl)));
      }
      return NoError;
    }

    /** Replaces the token, once the space checks have passed. */
    method ReplaceToken(token: nat, tkl: nat)
      requires 1 <= buf.Length && len <= buf.Length && tkl <= MAX_TOKEN && HEADER_SIZE + tkl <= buf.Length
      requires len >= HEADER_SIZE + GetTkl() || (len < HEADER_SIZE && GetTkl() == 0)
      requires len > HEADER_SIZE ==> len - GetTkl() + tkl <= buf.Length
      modifies this`len, buf
      ensures old(len) >= HEADER_SIZE ==> len <= buf.Length && buf[..len] == Retoken(old(buf[..len]), token, tkl)
      ensures old(len) < HEADER_SIZE && tkl == 0 ==> len == old(len) && buf[..] == old(buf[..])
    {
      ghost var before := buf[..];
      hide Retoken, TailMoved;
      WriteToken(token, tkl);
      if old(len) >= HEADER_SIZE {
        hide TokenWritten;
        TokenWrittenIsRetoken(before, old(len), token, tkl);
        assert buf[..len] == buf[..][..len];
        assert before[..old(len)] == old(buf[..len]);
      } else if tkl == 0 {
        ShortPacket(before, old(len), token);
      }
    }

    static lemma ShortPacket(before: seq<byte>, n: nat, token: nat)
      requires HEADER_SIZE <= |before| && n < HEADER_SIZE && before[0] as int % 16 == 0
      ensures TokenWritten(before, n, token, 0) == before
    {
      assert LittleEndian(token, 0) == [];
    }

    /** The editing part of SetToken, once the space checks have passed. */
    method WriteToken(token: nat, tkl: nat)
      requires 1 <= buf.Length && len <= buf.Length && tkl <= MAX_TOKEN && HEADER_SIZE + tkl <= buf.Length
      requires len >= HEADER_SIZE + GetTkl() || (len < HEADER_SIZE && GetTkl() == 0)
      requires len > HEADER_SIZE ==> len - GetTkl() + tkl <= buf.Length
      modifies this`len, buf
      ensures buf[..] == TokenWritten(old(buf[..]), old(len), token, tkl)
      ensures len == old(len) - old(GetTkl()) + tkl
    {
      hide Seqs.Splice;
      MoveTail(tkl);
      ghost var moved := buf[..];
      var old0 := buf[0];
      Memcpy(buf, HEADER_SIZE, LittleEndian(token, tkl));
      ghost var copied := buf[..];
      Seqs.SpliceFirst(moved, HEADER_SIZE, LittleEndian(token, tkl));
      assert buf[0] == copied[0] == moved[0] == old0;
      len := len + tkl - GetTkl();
      WriteNibble(tkl);
    }

    method WriteNibble(tkl: nat)
      requires 1 <= buf.Length && tkl <= MAX_TOKEN
      modifies buf
      ensures buf[..] == old(buf[..])[0 := (tkl + 16 * (old(buf[0]) as int / 16)) as byte]
    {
      buf[0] := (tkl + 16 * (buf[0] as int / 16)) as byte;
    }

    /** Makes or takes room for a token of tkl bytes. */
    method MoveTail(tkl: nat)
      requires 1 <= buf.Length && len <= buf.Length
      requires len > HEADER_SIZE ==> HEADER_SIZE + GetTkl() <= len <= buf.Length + GetTkl() - tkl
      modifies buf
      ensures buf[..] == TailMoved(old(buf[..]), len, tkl)
    {
      hide Seqs.Splice;
      if len > HEADER_SIZE {
        var src := HEADER_SIZE + GetTkl();
        ghost var before := buf[..];
        assert before[src..len] == buf[src..src + (len - src)];
        Memmove(buf, HEADER_SIZE + tkl, src, len - src);
      }
    }

    /** How a new token changes the size of the packet. */
    static lemma TokenSize(m: Message, token: nat, tkl: nat)
      requires ValidMessage(m)
      ensures var m' := m.(token := LittleEndian(token, tkl));
              && (ValidMessage(m') <==> tkl <= MAX_TOKEN)
              && (tkl <= MAX_TOKEN ==> |Encode(m')| == |Encode(m)| - |m.token| + tkl)
      ensures |Encode(m)| >= HEADER_SIZE + |m.token|
    {
    }

    // ------------------------------------------------------------------ init

    /** Starts a new packet: an empty RST with message id 0. */
    method InitPdu() returns (r: Error)
      modifies this`len, buf
      ensures r == if buf.Length < HEADER_SIZE then InsufficientBuffer else NoError
      ensures r == NoError ==> Valid() && Msg() == Message(RST, 0, 0, [], [], [])
      ensures r != NoError ==> len == old(len) && buf[..] == old(buf[..])
    {
      if buf.Length < HEADER_SIZE {
        return InsufficientBuffer;
      }
      len := 0;
      Memcpy(buf, 0, [0, 0, 0, 0]);
      r := SetVersion(1);
      r := SetType(RST);
      r := SetToken(0, 0);
      r := SetCode(0);
      r := SetMid(0);
      assert buf[..len] == [112, 0, 0, 0];
      var m := Message(RST, 0, 0, [], [], []);
      assert Encode(m) == [112, 0, 0, 0];
      Means(m);
      return NoError;
    }

    // --------------------------------------------------------------- options

    /** Walks to the place where an option numbered num goes: p is behind every
        option of at most that number, prev the number before it. */
    method FindInsertion(num: u16) returns (p: nat, prev: nat)
      requires Valid()
      ensures var k := InsertAt(Msg().options, num);
              ValidMessage(Msg()) && p == Position(Msg(), k) && prev == NumBefore(Msg(), k)
    {
      ghost var m, k := Msg(), 0;
      StartOfOptions();
      assert PassedUpTo(m, num, 0);
      hide *;
      var val: nat, optLen: nat, optNum: nat := HEADER_SIZE + GetTkl(), 0, 0;
      var more := true;
      p, prev := val + optLen, optNum;
      while more
        invariant k <= |m.options| && PassedUpTo(m, num, k)
        invariant if more then AtOption(m, k, val + optLen, optNum) else AtOption(m, k, p, prev) && Beyond(m, num, k)
        decreases |m.options| - k, more
      {
        p, prev := val + optLen, optNum;
        more, optNum, optLen, val := PassOption(p, prev, num, m, k);
        k := if more then k + 1 else k;
      }
      InsertionFound(m, num, k);
      AtPosition(m, k, p, prev);
    }

    /** One turn of that loop: goes on if there is an option at p and its number
        is at most num. */
    method PassOption(p: nat, prev: nat, num: u16, ghost m: Message, ghost k: nat)
      returns (more: bool, optNum: nat, optLen: nat, val: nat)
      requires Holds(buf[..], m) && len == |Encode(m)| && AtOption(m, k, p, prev) && k <= |m.options| && PassedUpTo(m, num, k)
      ensures more ==> k < |m.options| && PassedUpTo(m, num, k + 1) && AtOption(m, k + 1, val + optLen, optNum)
      ensures !more ==> Beyond(m, num, k)
    {
      hide *;
      var d := DecodeNext(p, prev, m, k);
      optNum, optLen, val := prev, 0, p;
      if d.Stop? {
        more := false;
      } else {
        optNum, optLen, val := (prev + d.delta) % 0x1_0000, d.len, d.val;
        more := optNum <= num && p + optLen < len;
        if more {
          PassedNext(m, num, k);
        }
      }
      if !more {
        BeyondIs(m, num, k);
      }
    }

    /** What every walk over the options starts from. */
    lemma StartOfOptions()
      requires Valid()
      ensures ValidMessage(Msg()) && Holds(buf[..], Msg()) && len == |Encode(Msg())| && buf.Length >= 1
      ensures AtOption(Msg(), 0, HEADER_SIZE + GetTkl(), 0)
    {
      Meaning();
      FirstPosition(Msg());
      hide Encode, Position;
    }

    /** One turn of every walk over the options: decodes option k, whose delta is
        counted from num, or finds the end of the options. */
    method DecodeNext(p: nat, ghost num: nat, ghost m: Message, ghost k: nat) returns (d: Decoded)
      requires Holds(buf[..], m) && len == |Encode(m)| && AtOption(m, k, p, num) && k <= |m.options|
      ensures d.Found? <==> k < |m.options|
      ensures d.Found? ==>
                && num + d.delta == m.options[k].num < 0x1_0000
                && d.len == |m.options[k].value|
                && AtOption(m, k + 1, d.val + d.len, m.options[k].num) && p <= d.val && p + d.len < len
      ensures d.Stop? ==> d.err == EndOfOptions(m)
    {
      AtPosition(m, k, p, num);
      Scan(m, k);
      assert k < |m.options| ==> NumBefore(m, k + 1) == m.options[k].num;
      hide *;
      d := DecodeOption(buf[..], p, len - p);
      if d.Found? {
        AtOptionIs(m, k + 1, d.val + d.len, m.options[k].num);
      }
    }

    static lemma FirstPosition(m: Message)
      requires ValidMessage(m)
      ensures Position(m, 0) == HEADER_SIZE + |m.token|
    {
    }

    /** What the decoder answers at option k, and where that leads. */
    lemma Scan(m: Message, k: nat)
      requires Holds(buf[..], m) && len == |Encode(m)| && k <= |m.options|
      ensures var p := Position(m, k);
              && HEADER_SIZE + |m.token| <= p <= len
              && (p == len || Readable(buf[..], p))
              && var d := DecodeOption(buf[..], p, len - p);
              && (d.Found? <==> k < |m.options|)
              && (d.Found? ==> && NumBefore(m, k) + d.delta == NumBefore(m, k + 1) < 0x1_0000
                               && d.len == |m.options[k].value|
                               && d.val + d.len == Position(m, k + 1) <= len
                               && p < d.val)
              && (d.Stop? ==> d.err == EndOfOptions(m))
    {
      hide DecodeOption, Readable, Encode, Prefix, Suffix, ValidMessage, EncodeOption;
      ScanStep(buf[..], m, k);
      if k < |m.options| {
        SuffixStep(m, k);
        EncodeAt(m, k + 1);
      }
    }

    /** Recounts the deltas of the options at `start` by the given offset. The C
        loop also resizes headers that change length, but moves only one value
        then; headers of unchanged length, and a payload marker at which the
        loop stops, are what its caller relies on here. */
    method AdjustOptionDeltas(start: nat, optsLen: nat, offset: int, ghost t: TailEdit)
      requires t.Ok() && offset == t.prev - t.num && t.Before() != [] && |t.Before()| <= optsLen
      requires Seqs.PieceAt(buf[..], start, t.Before())
      modifies buf
      ensures start + |Recounted(t.num, t.opts)| <= buf.Length
      ensures buf[..] == Seqs.Splice(old(buf[..]), start, Recounted(t.num, t.opts))
    {
      ghost var before, k := buf[..], 0;
      assert Recounting(t, before, start, optsLen);
      hide *;
      RecountStart(t, before, start);
      var ptr: nat, optNum: int, stop := start, 0, false;
      while !stop
        invariant k <= |t.opts| && RecountedTo(t, before, start, k, ptr, optNum, buf[..])
        invariant stop ==> k == |t.opts|
        decreases |t.opts| - k, !stop
      {
        stop, ptr, optNum := AdjustOne(ptr, optNum, start, optsLen, offset, t, before, k);
        k := if stop then k else k + 1;
      }
      RecountEnds(t, before, start, optsLen, k, ptr, optNum, buf[..]);
    }

    /** One turn of that loop: decodes an option and rewrites its header, or
        stops behind the last one. */
    method AdjustOne(ptr: nat, optNum: int, start: nat, optsLen: nat, offset: int,
                     ghost t: TailEdit, ghost before: seq<byte>, ghost k: nat)
      returns (stop: bool, ptr': nat, optNum': int)
      requires Recounting(t, before, start, optsLen) && offset == t.prev - t.num && k <= |t.opts|
      requires RecountedTo(t, before, start, k, ptr, optNum, buf[..])
      modifies buf
      ensures stop <==> k == |t.opts|
      ensures RecountedTo(t, before, start, if stop then k else k + 1, ptr', optNum', buf[..])
    {
      hide *;
      if k == |t.opts| {
        RecountEnds(t, before, start, optsLen, k, ptr, optNum, buf[..]);
      } else {
        RecountGoesOn(t, before, start, optsLen, k, ptr, optNum, buf[..]);
      }
      var d := DecodeOption(buf[..], ptr, optsLen - (ptr - start));
      if d.Stop? {
        return true, ptr, optNum;
      }
      optNum' := (optNum + d.delta) % 0x1_0000;
      var newNum := optNum' + offset;
      var newHeader := HeaderLen(newNum, d.len);
      var _, _ := BuildOptionHeader(buf, ptr, newHeader, newNum, d.len);
      return false, d.val + d.len, optNum';
    }

    /** Makes n bytes of room at p and recounts the options behind it. */
    method OpenGap(p: nat, n: nat, offset: int, ghost t: TailEdit)
      requires t.Ok() && offset == t.prev - t.num && len == p + |t.Before()| && len + n <= buf.Length
      requires Seqs.PieceAt(buf[..], p, t.Before())
      modifies this`len, buf
      ensures len == old(len) + n
      ensures buf[..][..p] == old(buf[..])[..p]
      ensures Seqs.PieceAt(buf[..], p + n, t.Later())
    {
      hide *;
      t.SameSize();
      if len != p {
        MoveSuffix(p, n, t.Before());
        len := len + n;
        Recount(p, p + n, len - p, offset, t);
      } else {
        t.Empty();
        EmptyPiece(buf[..], p + n, t.Later());
        len := len + n;
      }
    }

    static lemma EmptyPiece(a: seq<byte>, at: nat, s: seq<byte>)
      requires at <= |a| && s == []
      ensures Seqs.PieceAt(a, at, s)
    {
    }

    /** Slides the end of the packet, from p on, n bytes further. */
    method MoveSuffix(p: nat, n: nat, ghost suffix: seq<byte>)
      requires len == p + |suffix| && len + n <= buf.Length && Seqs.PieceAt(buf[..], p, suffix)
      modifies buf
      ensures buf[..][..p] == old(buf[..])[..p]
      ensures Seqs.PieceAt(buf[..], p + n, suffix)
    {
      hide Seqs.Splice;
      ghost var before := buf[..];
      assert before[p..len] == buf[p..p + (len - p)];
      Memmove(buf, p + n, p, len - p);
      Seqs.Shifted(before, p, n, suffix);
    }

    /** Recounts the options at `start`. */
    method Recount(p: nat, start: nat, optsLen: nat, offset: int, ghost t: TailEdit)
      requires t.Ok() && offset == t.prev - t.num && t.Before() != [] && p <= start && |t.Before()| <= optsLen
      requires Seqs.PieceAt(buf[..], start, t.Before())
      modifies buf
      ensures buf[..][..p] == old(buf[..])[..p]
      ensures Seqs.PieceAt(buf[..], start, t.Later())
    {
      ghost var moved := buf[..];
      t.InBuffer(moved, start);
      assert t.Later() == Recounted(t.num, t.opts) + t.pay;
      assert Behind(t.num, t.opts) && KeepsHeaders(t.prev, t.num, t.opts);
      hide *;
      AdjustOptionDeltas(start, optsLen, offset, t);
      RecountDone(moved, start, t.prev, t.num, t.opts, t.pay);
      Seqs.SpliceOutside(moved, start, Recounted(t.num, t.opts), 0, p);
    }

    /** Adds an option behind every option of at most its number. That is sorted
        insertion exactly if at most one option follows. */
    method AddOption(num: u16, value: seq<byte>) returns (r: Error)
      requires Valid() && |value| < 0x1_0000 && Insertable(Msg(), num)
      modifies this`len, buf
      ensures var m, o := old(Msg()), Opt(num, value);
              var m' := m.(options := Insert(m.options, o));
              && ValidMessage(m) && ValidMessage(m')
              && (r == NoError <==> |Encode(m')| <= buf.Length)
              && (r == NoError ==> len <= buf.Length && buf[..len] == Inserted(m, o))
              && (r == NoError ==> (Valid() && Msg() == m' <==> Following(m, num) <= 1))
      ensures r != NoError ==> r == InsufficientBuffer && len == old(len) && buf[..] == old(buf[..])
    {
      ghost var m, o := Msg(), Opt(num, value);
      Meaning();
      InsertedExact(m, o);
      var p, prev := FindInsertion(num);
      hide Encode, Position, Insert, InsertAt, ValidMessage, Insertable, Holds, Prefix, Suffix, Inserted, Following, Parse;
      r := InsertAtPosition(p, prev, num, value, m);
    }

    /** The editing part of AddOption, at the place the scan found. */
    method InsertAtPosition(p: nat, prev: nat, num: u16, value: seq<byte>, ghost m: Message) returns (r: Error)
      requires |value| < 0x1_0000 && Insertable(m, num) && Holds(buf[..], m) && len == |Encode(m)|
      requires p == Position(m, InsertAt(m.options, num)) && prev == NumBefore(m, InsertAt(m.options, num))
      modifies this`len, buf
      ensures var bytes := Inserted(m, Opt(num, value));
              && (r == NoError <==> |bytes| <= buf.Length)
              && (r == NoError ==> len == |bytes| && buf[..len] == bytes)
      ensures r != NoError ==> r == InsufficientBuffer && len == old(len) && buf[..] == old(buf[..])
    {
      hide *;
      InsertionPlan(buf[..], m, Opt(num, value));
      var header := HeaderLen(num - prev, |value|);
      if buf.Length < len + header + |value| {
        return InsufficientBuffer;
      }
      ghost var k := InsertAt(m.options, num);
      WriteInsertion(p, header, num - prev, value, prev - num, Prefix(m, k), TailEditFor(m, num));
      return NoError;
    }

    /** Room made, and an option's header and value written into it. */
    method WriteInsertion(p: nat, header: nat, delta: nat, value: seq<byte>, offset: int,
                          ghost pre: seq<byte>, ghost t: TailEdit)
      requires delta < 0x1_0000 && |value| < 0x1_0000 && header == HeaderLen(delta, |value|)
      requires t.Ok() && offset == t.prev - t.num
      requires p == |pre| && len == p + |t.Before()| && len + header + |value| <= buf.Length
      requires buf[..][..p] == pre && Seqs.PieceAt(buf[..], p, t.Before())
      modifies this`len, buf
      ensures len == old(len) + header + |value|
      ensures buf[..len] == pre + (OptionHeader(delta, |value|) + value) + t.Later()
    {
      hide *;
      t.SameSize();
      HeaderSize(delta, |value|);
      OpenGap(p, header + |value|, offset, t);
      PieceSlice(buf[..], p + header + |value|, t.Later());
      FillGap(p, header, delta, value, len);
      Seqs.Front3(buf[..], pre, OptionHeader(delta, |value|) + value, t.Later());
      assert buf[..len] == buf[..][..len];
    }

    static lemma PieceSlice(a: seq<byte>, at: nat, s: seq<byte>)
      requires Seqs.PieceAt(a, at, s)
      ensures at + |s| <= |a| && a[at..at + |s|] == s
    {
    }

    /** Writes an option's header and value into room made for it. */
    method FillGap(p: nat, header: nat, delta: nat, value: seq<byte>, ghost end: nat)
      requires delta < 0x1_0000 && |value| < 0x1_0000 && header == HeaderLen(delta, |value|)
      requires p + header + |value| <= end <= buf.Length
      modifies buf
      ensures buf[..][..p] == old(buf[..])[..p]
      ensures buf[..][p..p + header + |value|] == OptionHeader(delta, |value|) + value
      ensures buf[..][p + header + |value|..end] == old(buf[..])[p + header + |value|..end]
    {
      hide Seqs.Splice, OptionHeader;
      ghost var gap := buf[..];
      var _, _ := BuildOptionHeader(buf, p, header, delta, |value|);
      Memcpy(buf, p + header, value);
      Filled(gap, buf[..], p, OptionHeader(delta, |value|), value, end);
    }
  
    // --------------------------------------------------------------- payload

    /** Walks to the end of the options, as both payload functions do. */
    method FindEnd() returns (p: nat, err: Error)
      requires Valid()
      ensures ValidMessage(Msg()) && p == Position(Msg(), |Msg().options|)
      ensures err == EndOfOptions(Msg())
    {
      ghost var m, k := Msg(), 0;
      StartOfOptions();
      hide *;
      var optNum: nat, more := 0, true;
      p, err := HEADER_SIZE + GetTkl(), NoError;
      while more
        invariant k <= |m.options| && AtOption(m, k, p, optNum)
        invariant !more ==> k == |m.options| && err == EndOfOptions(m)
        decreases |m.options| - k, more
      {
        more, err, p, optNum := WalkOn(p, optNum, m, k);
        k := if more then k + 1 else k;
      }
      AtPosition(m, k, p, optNum);
    }

    /** One turn of a walk to the end of the options: goes on to the next one, or
        stays where the options end. */
    method WalkOn(p: nat, num: nat, ghost m: Message, ghost k: nat) returns (more: bool, err: Error, p': nat, num': nat)
      requires Holds(buf[..], m) && len == |Encode(m)| && AtOption(m, k, p, num) && k <= |m.options|
      ensures more <==> k < |m.options|
      ensures more ==> err == NoError && AtOption(m, k + 1, p', num')
      ensures !more ==> err == EndOfOptions(m) && AtOption(m, k, p', num')
    {
      hide *;
      var d := DecodeNext(p, num, m, k);
      more := d.Found?;
      if more {
        err, p', num' := NoError, d.val + d.len, (num + d.delta) % 0x1_0000;
      } else {
        err, p', num' := d.err, p, num;
      }
    }

    /** Writes a payload behind the options. The marker is written only when
        there was none, and never skipped when there was one. */
    method SetPayload(payload: seq<byte>) returns (r: Error)
      requires Valid()
      modifies this`len, buf
      ensures r == if buf.Length < old(len) + |payload| + (if old(Msg()).payload == [] then 1 else 0)
                   then InsufficientBuffer else NoError
      ensures r == NoError ==>
                ValidMessage(old(Msg())) && len <= buf.Length && buf[..len] == PayloadSet(old(Msg()), payload)
      ensures r == NoError ==>
                ((Valid() && Msg() == old(Msg()).(payload := payload))
                 <==> (old(Msg()).payload == [] <==> payload != []))
      ensures r != NoError ==> len == old(len) && buf[..] == old(buf[..])
    {
      ghost var m := Msg();
      Meaning();
      PayloadSetMeaning(m, payload);
      PayloadPlace(buf[..], m);
      PayloadSetBytes(m, payload);
      var p, err := FindEnd();
      assert len == p + |EncodePayload(m.payload)|;
      hide Position, Holds, Encode, ValidMessage, Prefix, Suffix, PayloadSet, Parse;
      var marker := err == EndOfPacket;
      if buf.Length < len + |payload| + (if marker then 1 else 0) {
        return InsufficientBuffer;
      }
      PutPayload(p, marker, payload);
      return NoError;
    }

    /** Writes a payload at p, behind a marker if there is none yet. */
    method PutPayload(p: nat, marker: bool, payload: seq<byte>)
      requires p + (if marker then 1 else 0) + |payload| <= buf.Length
      modifies this`len, buf
      ensures len == p + (if marker then 1 else 0) + |payload|
      ensures buf[..len] == (if marker then old(buf[..])[..p] + [PAYLOAD_MARKER] else old(buf[..])[..p]) + payload
    {
      var end := p;
      if marker {
        buf[p] := PAYLOAD_MARKER;
        assert buf[..][..p] == old(buf[..])[..p];
        end := p + 1;
      }
      len := end + |payload|;
      CopyAt(end, payload);
    }

    method CopyAt(p: nat, s: seq<byte>)
      requires p + |s| <= buf.Length
      modifies buf
      ensures buf[..p + |s|] == old(buf[..])[..p] + s
    {
      ghost var before := buf[..];
      Memcpy(buf, p, s);
      Seqs.SpliceParts(before, p, s);
      hide Seqs.Splice;
      Seqs.Join(buf[..], 0, p, p + |s|);
    }

    /** Finds the payload: its length, and where it starts if there is one. */
    method GetPayload() returns (n: nat, val: Ptr)
      requires Valid()
      ensures n == |Msg().payload|
      ensures if n == 0 then val == Null else val.At? && val.pos + n == len && buf[val.pos..len] == Msg().payload
    {
      PayloadFacts();
      hide *;
      var offset, err := FindEnd();
      n, val := 0, Null;
      if err == FoundPayloadMarker {
        n := len - offset - 1;
        val := At(offset + 1);
        assert buf[..][offset + 1..len] == buf[offset + 1..len];
      }
    }

    /** The payload as a value. */
    method ReadPayload() returns (payload: seq<byte>)
      requires Valid()
      ensures payload == Msg().payload
    {
      assert len <= buf.Length;
      hide *;
      var n, val := GetPayload();
      payload := if n == 0 then [] else buf[val.pos..val.pos + n];
    }

    lemma PayloadFacts()
      requires Valid()
      ensures ValidMessage(Msg())
      ensures var m, p := Msg(), Position(Msg(), |Msg().options|);
              && (EndOfOptions(m) == FoundPayloadMarker <==> m.payload != [])
              && (m.payload != [] ==> p + 1 + |m.payload| == len <= buf.Length && buf[..][p + 1..len] == m.payload)
    {
      hide *;
      Meaning();
      PayloadAtEnd(buf[..], Msg());
    }

    // ------------------------------------------------------------ validation

    /** Checks a received packet. Only the fixed header and the first byte
        behind the token are looked at: the loop over the options ends as soon
        as one option decodes, and the test for a payload marker at the end of
        the packet compares against the marker's own position. */
    method ValidatePkt() returns (r: Error)
      requires Checkable(buf[..], len)
      ensures r == NoError || r == InvalidPacket
      ensures r == NoError <==> Accepted(buf[..], len)
      ensures Valid() ==> r == NoError
    {
      if Valid() {
        Meaning();
        ValidAccepted(buf[..], Msg());
      }
      if len > buf.Length || len < HEADER_SIZE {
        return InvalidPacket;
      }
      if GetVersion() != 1 || GetTkl() > MAX_TOKEN {
        return InvalidPacket;
      }
      var p := HEADER_SIZE + GetTkl();
      var d := DecodeOption(buf[..], p, len - p);
      if d.Found? || d.err == EndOfPacket {
        return NoError;
      }
      if d.err == FoundPayloadMarker {
        return if len == p then InvalidPacket else NoError;
      }
      return d.err;
    }

    // --------------------------------------------------------------- options

    /** The option after `last`, or the first one if last has number 0. The
        ghost argument k is the index of the option asked for. */
    method GetOption(last: OptRef, ghost k: nat) returns (r: OptRef)
      requires Valid() && k <= |Msg().options| && ValidMessage(Msg())
      requires if last.Num() == 0 then k == 0 else k > 0 && last == RefAt(Msg(), k - 1)
      ensures r == OptionAt(Msg(), k)
    {
      ghost var m := Msg();
      Meaning();
      hide *;
      FirstPosition(m);
      PositionInside(m, k);
      LastEnds(m, k, last);
      var first: nat := HEADER_SIZE + GetTkl();
      var num, p := 0, first;
      if last.Num() != 0 {
        num, p := last.num, last.val.pos + last.len;
      }
      if p > len || p <= 0 {
        p := first;
      }
      r := OptionFrom(num, p, m, k);
    }

    /** Decodes the option at p, counting its number from num. */
    method OptionFrom(num: nat, p: nat, ghost m: Message, ghost k: nat) returns (r: OptRef)
      requires Holds(buf[..], m) && len == |Encode(m)| && k <= |m.options|
      requires p == Position(m, k) && num == NumBefore(m, k) && (k > 0 ==> num != 0)
      ensures r == OptionAt(m, k)
    {
      assert AtOption(m, k, p, num) && ValidMessage(m);
      hide *;
      var d := DecodeNext(p, num, m, k);
      Answered(m, k, p, num, d);
      match d
      case Found(delta, n, val) => r := OptRef((num + delta) % 0x1_0000, n, At(val));
      case Stop(FoundPayloadMarker) =>
        r := if num == 0 then OptRef(0, len - p - 1, At(p + 1)) else Wild;
      case Stop(_) => r := NOTHING;
    }

    /** The getter's answer from the decoder's. */
    lemma Answered(m: Message, k: nat, p: nat, num: nat, d: Decoded)
      requires ValidMessage(m) && len == |Encode(m)| && AtOption(m, k, p, num) && k <= |m.options| && (k > 0 ==> num != 0)
      requires d.Found? <==> k < |m.options|
      requires d.Found? ==>
                 num + d.delta == m.options[k].num < 0x1_0000 && AtOption(m, k + 1, d.val + d.len, m.options[k].num)
                 && d.len == |m.options[k].value|
      requires d.Stop? ==> d.err == EndOfOptions(m)
      ensures match d
              case Found(delta, n, val) => OptionAt(m, k) == OptRef(num + delta, n, At(val)) && num + delta < 0x1_0000
              case Stop(FoundPayloadMarker) =>
                p + 1 <= len && OptionAt(m, k) == if num == 0 then OptRef(0, len - p - 1, At(p + 1)) else Wild
              case Stop(_) => OptionAt(m, k) == NOTHING
    {
      hide Encode, Position, ValidMessage, OptionAt;
      OptionAnswered(m, k, d, len);
    }

    /** The occ-th option numbered num. */
    method GetOptionByNum(num: u16, occ: byte) returns (r: OptRef)
      requires Valid() && num >= 1
      ensures ValidMessage(Msg()) && r == Lookup(Msg(), num, occ)
    {
      ghost var m, k := Msg(), 0;
      StartOfOptions();
      SearchStart(m, num, occ);
      hide *;
      var i: byte := 0;
      var found := false;
      r := NOTHING;
      while !found
        invariant k <= |m.options|
        invariant if found then r == Lookup(m, num, occ) else SearchState(m, num, occ, k, i as int) && Passing(m, k, r)
        decreases |m.options| - k, !found
      {
        found, r, i := SearchTurn(r, i, num, occ, k);
        k := if found then k else k + 1;
      }
    }

    /** One turn of that loop: takes the next option, and tells whether the
        answer is settled. */
    method SearchTurn(last: OptRef, i: byte, num: u16, occ: byte, ghost k: nat) returns (found: bool, r: OptRef, i': byte)
      requires Valid() && ValidMessage(Msg()) && num >= 1 && k <= |Msg().options|
      requires SearchState(Msg(), num, occ, k, i as int) && Passing(Msg(), k, last)
      ensures found ==> r == Lookup(Msg(), num, occ)
      ensures !found ==> k < |Msg().options| && SearchState(Msg(), num, occ, k + 1, i' as int) && Passing(Msg(), k + 1, r)
    {
      ghost var m := Msg();
      hide *;
      PassingLast(m, k, last);
      r := GetOption(last, k);
      SearchStep(m, num, occ, k, i as int);
      i' := i;
      if r.Num() == num {
        i' := ((i as int + 1) % 256) as byte;
      } else if r.Num() > num {
        return true, NOTHING, i;
      } else if r.Num() == 0 {
        return true, r, i;
      }
      found := !(i' <= occ);
      if !found {
        PassingNext(m, k, r);
      }
    }
  }
}
