/** The write-ahead log: framing of src/wal.rs, the reader of src/value.rs, and replay after a truncation. */
module Wal {
  import opened Wrappers
  import opened Bytes

  const MAX_HEADER_SIZE: nat := 21
  const MAX_KEY_LEN: nat := 65536

  datatype Entry = Entry(key: Bytes, value: Bytes, meta: byte, userMeta: byte, expiresAt: nat)

  datatype Header = Header(keyLen: nat, valueLen: nat, expiresAt: nat, meta: byte, userMeta: byte)

  datatype WalError = VarDecode | Decode | UnexpectedEof | LogRead

  predicate EntryOk(e: Entry) { |e.key| < U32 && |e.value| < U32 && e.expiresAt < U64 }

  // ------------------------------------------------------------ framing

  function HeaderOf(e: Entry): Header { Header(|e.key|, |e.value|, e.expiresAt, e.meta, e.userMeta) }

  /** `Header::encode` */
  function EncodeHeader(h: Header): Bytes {
    [h.meta, h.userMeta] + (EncodeVarint(h.keyLen) + (EncodeVarint(h.valueLen) + EncodeVarint(h.expiresAt)))
  }

  /** `encode_entry` */
  function EncodeEntry(e: Entry): Bytes { EncodeHeader(HeaderOf(e)) + (e.key + e.value) }

  /** `Header::decode`: the header and what follows it. */
  function DecodeHeader(b: Bytes): Result<(Header, Bytes), WalError> {
    if |b| <= 2 then Err(VarDecode) else
    match DecodeVarint(b[2..])
    case None => Err(Decode)
    case Some((keyLen, b1)) =>
      match DecodeVarint(b1)
      case None => Err(Decode)
      case Some((valueLen, b2)) =>
        match DecodeVarint(b2)
        case None => Err(Decode)
        case Some((expiresAt, b3)) => Ok((Header(keyLen % U32, valueLen % U32, expiresAt, b[0], b[1]), b3))
  }

  /** `EntryReader::entry` */
  function DecodeEntry(b: Bytes): Result<(Entry, Bytes), WalError> {
    match DecodeHeader(b)
    case Err(e) => Err(e)
    case Ok((h, rest)) =>
      if h.keyLen > MAX_KEY_LEN then Err(LogRead)
      else if h.keyLen > |rest| then Err(UnexpectedEof)
      else if h.keyLen + h.valueLen > |rest| then Err(UnexpectedEof)
      else Ok((Entry(rest[..h.keyLen], rest[h.keyLen..h.keyLen + h.valueLen], h.meta, h.userMeta, h.expiresAt),
               rest[h.keyLen + h.valueLen..]))
  }

  /** An entry as the reader finds it: the varints need not be the shortest ones. */
  ghost predicate EntryAhead(b: Bytes, e: Entry, rest: Bytes, k: Bytes, v: Bytes, x: Bytes) {
    && Group(k) && Group(v) && Group(x)
    && b == [e.meta, e.userMeta] + (k + (v + (x + (e.key + (e.value + rest)))))
    && |e.key| == VarintSum(k) % U64 % U32 <= 0x1_0000
    && |e.value| == VarintSum(v) % U64 % U32
    && e.expiresAt == VarintSum(x) % U64
  }

  /** On any bytes, an entry is read exactly when one lies whole at the front. */
  lemma DecodeEntryIs(b: Bytes, e: Entry, rest: Bytes)
    ensures DecodeEntry(b) == Ok((e, rest)) <==> exists k, v, x :: EntryAhead(b, e, rest, k, v, x)
  {
    hide DecodeEntry, EntryAhead, DecodeVarint;
    if DecodeEntry(b) == Ok((e, rest)) {
      var k, v, x := EntryFound(b, e, rest);
    }
    if k, v, x :| EntryAhead(b, e, rest, k, v, x) {
      EntryRead(b, e, rest, k, v, x);
    }
  }

  lemma EntryFound(b: Bytes, e: Entry, rest: Bytes) returns (k: Bytes, v: Bytes, x: Bytes)
    requires DecodeEntry(b) == Ok((e, rest))
    ensures EntryAhead(b, e, rest, k, v, x)
  {
    hide DecodeVarint, Group, VarintSum;
    var (n, b1) := DecodeVarint(b[2..]).value;
    var (m, b2) := DecodeVarint(b1).value;
    var (t, b3) := DecodeVarint(b2).value;
    DecodeVarintIs(b[2..], n, b1);
    DecodeVarintIs(b1, m, b2);
    DecodeVarintIs(b2, t, b3);
    k :| Group(k) && b[2..] == k + b1 && n == VarintSum(k) % U64;
    v :| Group(v) && b1 == v + b2 && m == VarintSum(v) % U64;
    x :| Group(x) && b2 == x + b3 && t == VarintSum(x) % U64;
    assert b3 == e.key + (e.value + rest);
    assert b == [b[0], b[1]] + b[2..];
  }

  lemma EntryRead(b: Bytes, e: Entry, rest: Bytes, k: Bytes, v: Bytes, x: Bytes)
    requires EntryAhead(b, e, rest, k, v, x)
    ensures DecodeEntry(b) == Ok((e, rest))
  {
    hide DecodeVarint, VarintSum;
    var body := e.key + (e.value + rest);
    assert b[2..] == k + (v + (x + body));
    DecodeVarintIs(b[2..], VarintSum(k) % U64, v + (x + body));
    DecodeVarintIs(v + (x + body), VarintSum(v) % U64, x + body);
    DecodeVarintIs(x + body, VarintSum(x) % U64, body);
    assert body[..|e.key|] == e.key && body[|e.key|..|e.key| + |e.value|] == e.value && body[|e.key| + |e.value|..] == rest;
  }

  datatype Outcome = Ended | Failed(error: WalError)

  datatype Turn = Got(entry: Entry, rest: Bytes) | Stop(outcome: Outcome)

  /** One call of `WalIterator::next`: the errors a cut-off record can cause end the log quietly. */
  function NextTurn(b: Bytes): Turn {
    match DecodeEntry(b)
    case Ok((e, rest)) => if e.key == [] then Stop(Ended) else Got(e, rest)
    case Err(LogRead) => Stop(Failed(LogRead))
    case Err(_) => Stop(Ended)
  }

  lemma TurnShrinks(b: Bytes)
    ensures NextTurn(b).Got? ==> |NextTurn(b).rest| < |b|
  {
    hide DecodeDigits;
    if |b| > 2 {
      DigitsShrink(b[2..], MAX_VARINT);
      if DecodeVarint(b[2..]).Some? {
        var b1 := DecodeVarint(b[2..]).value.1;
        DigitsShrink(b1, MAX_VARINT);
        if DecodeVarint(b1).Some? { DigitsShrink(DecodeVarint(b1).value.1, MAX_VARINT); }
      }
    }
  }

  /** Everything replay yields, and how it ends. */
  function Replay(b: Bytes): (seq<Entry>, Outcome)
    decreases |b|
  {
    TurnShrinks(b);
    match NextTurn(b)
    case Stop(o) => ([], o)
    case Got(e, rest) => var (es, o) := Replay(rest); ([e] + es, o)
  }

  // ------------------------------------------------------------ what survives

  function Log(es: seq<Entry>): Bytes {
    if es == [] then [] else EncodeEntry(es[0]) + Log(es[1..])
  }

  /** What should be read from the first `cut` bytes of a log of these entries, whatever the entries are:
      an empty key reads as the end of the log, and an oversized key is an error once its header survives. */
  function Survivors(es: seq<Entry>, cut: nat): (seq<Entry>, Outcome) {
    if es == [] then ([], Ended)
    else if |es[0].key| > MAX_KEY_LEN && |EncodeHeader(HeaderOf(es[0]))| <= cut then ([], Failed(LogRead))
    else if es[0].key == [] || cut < |EncodeEntry(es[0])| then ([], Ended)
    else
      var (rest, o) := Survivors(es[1..], cut - |EncodeEntry(es[0])|);
      ([es[0]] + rest, o)
  }

  predicate Plain(e: Entry) { 0 < |e.key| <= 0x1_0000 }

  // ------------------------------------------------------------ decoding inverts encoding

  lemma HeaderRoundTrip(h: Header, rest: Bytes)
    requires h.keyLen < U32 && h.valueLen < U32 && h.expiresAt < U64
    ensures DecodeHeader(EncodeHeader(h) + rest) == Ok((h, rest))
  {
    hide DecodeVarint, EncodeVarint;
    var k, v, x := EncodeVarint(h.keyLen), EncodeVarint(h.valueLen), EncodeVarint(h.expiresAt);
    VarintRoundTrip(h.keyLen, v + (x + rest));
    VarintRoundTrip(h.valueLen, x + rest);
    VarintRoundTrip(h.expiresAt, rest);
    var b := EncodeHeader(h) + rest;
    assert b[2..] == k + (v + (x + rest));
  }

  /** The layout of an entry: two flag bytes, three varints, then the key and the value. */
  lemma EntryLayout(e: Entry) returns (k: Bytes, v: Bytes, x: Bytes)
    ensures EncodeEntry(e) == [e.meta, e.userMeta] + k + v + x + e.key + e.value
    ensures IsVarint(k, |e.key|) && IsVarint(v, |e.value|) && IsVarint(x, e.expiresAt)
  {
    hide EncodeVarint, IsVarint;
    k, v, x := EncodeVarint(|e.key|), EncodeVarint(|e.value|), EncodeVarint(e.expiresAt);
    VarintFormat(|e.key|);
    VarintFormat(|e.value|);
    VarintFormat(e.expiresAt);
    assert EncodeEntry(e) == [e.meta, e.userMeta] + (k + (v + x)) + (e.key + e.value);
    assert [e.meta, e.userMeta] + (k + (v + x)) + (e.key + e.value) == [e.meta, e.userMeta] + k + v + x + e.key + e.value;
  }

  /** A header cut anywhere inside is one of the two errors that end the log quietly. */
  lemma HeaderCut(h: Header, cut: nat)
    requires h.keyLen < U32 && h.valueLen < U32 && h.expiresAt < U64
    requires cut < |EncodeHeader(h)|
    ensures var r := DecodeHeader(EncodeHeader(h)[..cut]); r.Err? && (r.error == VarDecode || r.error == Decode)
  {
    hide DecodeVarint, EncodeVarint;
    var k, v, x := EncodeVarint(h.keyLen), EncodeVarint(h.valueLen), EncodeVarint(h.expiresAt);
    var b := EncodeHeader(h)[..cut];
    if cut > 2 {
      var m := cut - 2;
      assert b[2..] == (k + (v + x))[..m];
      if m < |k| {
        VarintRoundTrip(h.keyLen, []);
        assert b[2..] == k[..m];
      } else if m - |k| < |v| {
        var t := v[..m - |k|];
        assert b[2..] == k + t;
        VarintRoundTrip(h.keyLen, t);
        VarintRoundTrip(h.valueLen, []);
      } else {
        var t := x[..m - |k| - |v|];
        assert b[2..] == k + (v + t);
        VarintRoundTrip(h.keyLen, v + t);
        VarintRoundTrip(h.valueLen, t);
        VarintRoundTrip(h.expiresAt, []);
      }
    }
  }

  /** A whole entry reads back; an oversized key is refused as soon as its header is whole. */
  lemma EntryRoundTrip(e: Entry, rest: Bytes)
    requires EntryOk(e)
    ensures DecodeEntry(EncodeEntry(e) + rest) == if |e.key| > MAX_KEY_LEN then Err(LogRead) else Ok((e, rest))
  {
    hide DecodeHeader, EncodeHeader;
    var h := EncodeHeader(HeaderOf(e));
    HeaderRoundTrip(HeaderOf(e), e.key + e.value + rest);
    assert EncodeEntry(e) + rest == h + (e.key + e.value + rest);
    var body := e.key + e.value + rest;
    assert body[..|e.key|] == e.key && body[|e.key|..|e.key| + |e.value|] == e.value && body[|e.key| + |e.value|..] == rest;
  }

  lemma EntryCut(e: Entry, cut: nat)
    requires EntryOk(e) && cut < |EncodeEntry(e)|
    ensures NextTurn(EncodeEntry(e)[..cut]) ==
            Stop(if |e.key| > MAX_KEY_LEN && |EncodeHeader(HeaderOf(e))| <= cut then Failed(LogRead) else Ended)
  {
    hide DecodeHeader, EncodeHeader;
    var h := EncodeHeader(HeaderOf(e));
    var b := EncodeEntry(e)[..cut];
    if cut < |h| {
      HeaderCut(HeaderOf(e), cut);
      assert b == h[..cut];
    } else {
      var t := (e.key + e.value)[..cut - |h|];
      HeaderRoundTrip(HeaderOf(e), t);
      assert b == h + t;
    }
  }

  /** What follows the last entry: zeros, at least a header's worth of them. */
  predicate ZeroTail(tail: Bytes) { |tail| >= MAX_HEADER_SIZE && tail[..MAX_HEADER_SIZE] == Zeroed(MAX_HEADER_SIZE) }

  lemma ZeroVarint(b: Bytes)
    requires b != [] && b[0] == 0
    ensures DecodeVarint(b) == Some((0, b[1..]))
  {}

  lemma ZerosEnd(tail: Bytes, cut: nat)
    requires ZeroTail(tail) && cut <= |tail|
    ensures NextTurn(tail[..cut]) == Stop(Ended)
  {
    var b := tail[..cut];
    assert forall i :: 0 <= i < cut && i < MAX_HEADER_SIZE ==> b[i] == tail[..MAX_HEADER_SIZE][i] == 0;
    hide DecodeVarint;
    if cut > 2 {
      ZeroVarint(b[2..]);
      assert b[2..][1..] == b[3..];
      if cut > 3 {
        ZeroVarint(b[3..]);
        assert b[3..][1..] == b[4..];
        if cut > 4 { ZeroVarint(b[4..]); } else { NoVarint(b[4..]); }
      } else {
        NoVarint(b[3..]);
      }
    }
  }

  lemma NoVarint(b: Bytes)
    requires b == []
    ensures DecodeVarint(b) == None
  {}

  /** Replay of any truncation of any log gives exactly what survives. */
  lemma {:induction false} ReplayTruncated(es: seq<Entry>, tail: Bytes, cut: nat)
    requires (forall e :: e in es ==> EntryOk(e)) && ZeroTail(tail) && cut <= |Log(es) + tail|
    ensures Replay((Log(es) + tail)[..cut]) == Survivors(es, cut)
  {
    hide EncodeEntry, EncodeHeader, DecodeEntry, ZeroTail;
    if es == [] {
      ZerosEnd(tail, cut);
      assert Log(es) + tail == tail;
    } else {
      var e, n := es[0], |EncodeEntry(es[0])|;
      assert e in es;
      var more := Log(es[1..]) + tail;
      assert Log(es) + tail == EncodeEntry(e) + more;
      if cut < n {
        EntryCut(e, cut);
        assert (Log(es) + tail)[..cut] == EncodeEntry(e)[..cut];
      } else {
        EntryRoundTrip(e, more[..cut - n]);
        assert (Log(es) + tail)[..cut] == EncodeEntry(e) + more[..cut - n];
        HeaderFits(e);
        ReplayTruncated(es[1..], tail, cut - n);
      }
    }
  }

  lemma HeaderFits(e: Entry)
    ensures |EncodeHeader(HeaderOf(e))| <= |EncodeEntry(e)|
  {}

  /** k is the number of entries whose encoding ends at or before the cut. */
  ghost predicate WholeBefore(es: seq<Entry>, cut: nat, k: nat) {
    k <= |es| && |Log(es[..k])| <= cut && (k < |es| ==> cut < |Log(es[..k + 1])|)
  }

  /** With plain keys, what survives is every entry that is whole, and replay never fails. */
  lemma {:induction false} PlainSurvivors(es: seq<Entry>, cut: nat) returns (k: nat)
    requires forall e :: e in es ==> Plain(e)
    ensures WholeBefore(es, cut, k) && Survivors(es, cut) == (es[..k], Ended)
  {
    hide EncodeEntry, EncodeHeader;
    if es == [] {
      k := 0;
    } else {
      var n := |EncodeEntry(es[0])|;
      assert es[0] in es && Plain(es[0]);
      if cut < n {
        k := 0;
        assert es[..1] == [es[0]] && Log([es[0]]) == EncodeEntry(es[0]) + Log([]);
      } else {
        var j := PlainSurvivors(es[1..], cut - n);
        k := j + 1;
        assert es[..k][1..] == es[1..][..j];
        assert k < |es| ==> es[..k + 1][1..] == es[1..][..j + 1];
        assert es[..k] == [es[0]] + es[1..][..j];
      }
    }
  }

  /** An untruncated log replays to exactly its entries if and only if every key is plain. */
  lemma ReplayIsExactlyPlain(es: seq<Entry>, tail: Bytes, cut: nat)
    requires (forall e :: e in es ==> EntryOk(e)) && ZeroTail(tail) && |Log(es)| <= cut <= |Log(es) + tail|
    ensures Replay((Log(es) + tail)[..cut]) == (es, Ended) <==> forall e :: e in es ==> Plain(e)
  {
    hide Log, ZeroTail, Survivors, Replay;
    ReplayTruncated(es, tail, cut);
    AllSurvive(es, cut);
  }

  lemma {:induction false} AllSurvive(es: seq<Entry>, cut: nat)
    requires |Log(es)| <= cut
    ensures Survivors(es, cut) == (es, Ended) <==> forall e :: e in es ==> Plain(e)
  {
    hide EncodeEntry, EncodeHeader;
    if es != [] {
      AllSurvive(es[1..], cut - |EncodeEntry(es[0])|);
      HeaderFits(es[0]);
      assert es == [es[0]] + es[1..];
      assert (forall e :: e in es ==> Plain(e)) <==> Plain(es[0]) && forall e :: e in es[1..] ==> Plain(e);
      var (rest, o) := Survivors(es[1..], cut - |EncodeEntry(es[0])|);
      assert ([es[0]] + rest)[1..] == rest;
      assert |EncodeEntry(es[0])| <= cut;
    }
  }

  /** An entry with an empty key ends every replay, whatever was written after it. */
  lemma {:induction false} EmptyKeyHidesTheRest(es: seq<Entry>, e: Entry, more: seq<Entry>, cut: nat)
    requires e.key == []
    ensures Survivors(es + [e] + more, cut) == Survivors(es + [e], cut)
    ensures |Survivors(es + [e] + more, cut).0| <= |es|
  {
    hide EncodeEntry, EncodeHeader;
    if es != [] {
      assert (es + [e] + more)[0] == es[0] && (es + [e])[0] == es[0];
      assert (es + [e] + more)[1..] == es[1..] + [e] + more && (es + [e])[1..] == es[1..] + [e];
      if cut >= |EncodeEntry(es[0])| { EmptyKeyHidesTheRest(es[1..], e, more, cut - |EncodeEntry(es[0])|); }
    }
  }

  // ------------------------------------------------------------ the file

  /** The log file mapped into memory. */
  class Wal {
    const mmap: array<byte>
    var writeAt: nat
    var size: nat
    var buf: Bytes

    /** The entries written through this object, in order. */
    ghost var written: seq<Entry>

    ghost predicate Valid()
      reads this, mmap
    {
      && writeAt <= mmap.Length < U32 && size <= mmap.Length
      && mmap[..writeAt] == Log(written) && (forall e :: e in written ==> EntryOk(e))
    }

    /** Zeros wait where the next header would start. */
    ghost predicate Terminated()
      reads this, mmap
    {
      writeAt <= mmap.Length && ZeroTail(mmap[writeAt..])
    }

    /** `open` on an existing file: writing starts over at offset 0. */
    constructor Open(file: array<byte>)
      requires file.Length < U32
      ensures Valid() && mmap == file && written == [] && size == file.Length && writeAt == 0
    {
      mmap, writeAt, size, buf := file, 0, file.Length, [];
      written := [];
    }

    /** `zero_next_entry`; also all that `bootstrap` does to a new file. */
    method ZeroNextEntry()
      requires Valid() && writeAt + MAX_HEADER_SIZE <= mmap.Length
      modifies mmap
      ensures Valid() && Terminated()
      ensures forall i :: 0 <= i < mmap.Length ==>
                mmap[i] == if writeAt <= i < writeAt + 21 then 0 else old(mmap[i])
    {
      ghost var before := mmap[..writeAt];
      forall i | writeAt <= i < writeAt + MAX_HEADER_SIZE { mmap[i] := 0; }
      assert mmap[..writeAt] == before;
      assert mmap[writeAt..][..MAX_HEADER_SIZE] == Zeroed(MAX_HEADER_SIZE);
    }

    /** `write_entry`, for an entry that leaves room for the terminating zeros. */
    method WriteEntry(e: Entry)
      requires Valid() && EntryOk(e) && writeAt + |EncodeEntry(e)| + MAX_HEADER_SIZE <= mmap.Length
      modifies this, mmap
      ensures Valid() && Terminated() && written == old(written) + [e]
      ensures writeAt == old(writeAt) + |EncodeEntry(e)| && size == old(size)
      ensures forall i :: writeAt + 21 <= i < mmap.Length ==> mmap[i] == old(mmap[i])
    {
      hide EncodeEntry, ZeroTail;
      buf := EncodeEntry(e);
      ghost var before := mmap[..writeAt];
      forall i | 0 <= i < |buf| { mmap[writeAt + i] := buf[i]; }
      assert mmap[..writeAt + |buf|] == before + buf;
      LogAppend(written, e);
      written := written + [e];
      writeAt := writeAt + |buf|;
      ZeroNextEntry();
    }

    /** `truncate`: later reads see the first `end` bytes. */
    method Truncate(end: nat)
      requires Valid() && end <= mmap.Length
      modifies this`size
      ensures Valid() && size == end && (old(Terminated()) ==> Terminated())
    {
      if end != size { size := end; }
    }

    /** `iter` */
    method Iter() returns (it: WalIterator)
      requires Valid()
      ensures fresh(it) && it.Unread() == mmap[..size]
    {
      it := new WalIterator(mmap[..size]);
    }
  }

  lemma {:induction false} LogAppend(es: seq<Entry>, e: Entry)
    ensures Log(es + [e]) == Log(es) + EncodeEntry(e)
  {
    hide EncodeEntry;
    if es == [] {
      assert [] + [e] == [e] && Log([e]) == EncodeEntry(e) + Log([]);
    } else {
      assert (es + [e])[0] == es[0] && (es + [e])[1..] == es[1..] + [e];
      LogAppend(es[1..], e);
    }
  }

  class WalIterator {
    const data: Bytes
    var pos: nat

    function Unread(): Bytes
      reads this
    {
      if pos <= |data| then data[pos..] else []
    }

    constructor (data: Bytes)
      ensures Unread() == data
    {
      this.data, pos := data, 0;
    }

    /** `next`: decode at the cursor, which moves past the entry. */
    method Next() returns (r: Result<Option<Entry>, WalError>)
      modifies this
      ensures match old(NextTurn(Unread()))
              case Got(e, rest) => r == Ok(Some(e)) && Unread() == rest
              case Stop(Ended) => r == Ok(None)
              case Stop(Failed(e)) => r == Err(e)
    {
      hide DecodeHeader;
      var b := Unread();
      match DecodeEntry(b)
      case Ok((e, rest)) =>
        if e.key == [] { return Ok(None); }
        RestIsSuffix(b);
        pos := |data| - |rest|;
        return Ok(Some(e));
      case Err(LogRead) => return Err(LogRead);
      case Err(_) => return Ok(None);
    }
  }

  lemma {:induction false} DigitsSuffix(b: Bytes, fuel: nat)
    ensures DecodeDigits(b, fuel).Some? ==>
              var rest := DecodeDigits(b, fuel).value.1; |rest| <= |b| && rest == b[|b| - |rest|..]
  {
    if fuel > 0 && b != [] { DigitsSuffix(b[1..], fuel - 1); }
  }

  lemma RestIsSuffix(b: Bytes)
    ensures DecodeEntry(b).Ok? ==> var rest := DecodeEntry(b).value.1; |rest| <= |b| && rest == b[|b| - |rest|..]
  {
    hide DecodeDigits;
    if |b| > 2 {
      DigitsSuffix(b[2..], MAX_VARINT);
      if DecodeVarint(b[2..]).Some? {
        var b1 := DecodeVarint(b[2..]).value.1;
        DigitsSuffix(b1, MAX_VARINT);
        if DecodeVarint(b1).Some? {
          DigitsSuffix(DecodeVarint(b1).value.1, MAX_VARINT);
        }
      }
    }
  }

  lemma ReplayTurn(b: Bytes, es: seq<Entry>)
    ensures match NextTurn(b)
            case Stop(o) => es + Replay(b).0 == es && Replay(b).1 == o
            case Got(e, rest) => es + Replay(b).0 == (es + [e]) + Replay(rest).0 && Replay(b).1 == Replay(rest).1
  {
    hide NextTurn;
  }

  /** Read a log to its end. */
  method ReadAll(it: WalIterator) returns (es: seq<Entry>, o: Outcome)
    modifies it
    ensures (es, o) == Replay(old(it.Unread()))
  {
    hide NextTurn, Replay;
    es, o := [], Ended;
    ghost var all := it.Unread();
    while true
      invariant Replay(all).0 == es + Replay(it.Unread()).0 && Replay(all).1 == Replay(it.Unread()).1
      decreases |it.Unread()|
    {
      ghost var b := it.Unread();
      TurnShrinks(b);
      ReplayTurn(b, es);
      var r := it.Next();
      match r {
        case Ok(Some(e)) =>
          es := es + [e];
        case Ok(None) => return es, Ended;
        case Err(e) => return es, Failed(e);
      }
    }
  }

  /** Create a log, write entries, cut the file anywhere, reopen it and iterate: exactly what survives comes back. */
  method WriteCutReplay(es: seq<Entry>, file: array<byte>, cut: nat) returns (read: seq<Entry>, o: Outcome)
    requires forall e :: e in es ==> EntryOk(e)
    requires |Log(es)| + MAX_HEADER_SIZE <= file.Length < U32 && cut <= file.Length
    modifies file
    ensures (read, o) == Survivors(es, cut)
  {
    hide EncodeEntry, ZeroTail, Survivors, Replay;
    var w := new Wal.Open(file);
    w.ZeroNextEntry();
    for i := 0 to |es|
      invariant w.Valid() && w.mmap == file && w.written == es[..i] && w.Terminated()
      invariant fresh(w)
    {
      LogSplit(es, i);
      assert es[i] in es;
      w.WriteEntry(es[i]);
      assert es[..i + 1] == es[..i] + [es[i]];
    }
    assert es[..|es|] == es;
    w.Truncate(cut);
    ghost var tail := file[w.writeAt..];
    assert file[..] == Log(es) + tail;
    assert file[..cut] == (Log(es) + tail)[..cut];
    ReplayTruncated(es, tail, cut);
    var w2 := new Wal.Open(file);
    w2.Truncate(cut);
    var it := w2.Iter();
    read, o := ReadAll(it);
  }

  lemma {:induction false} LogSplit(es: seq<Entry>, i: nat)
    requires i < |es|
    ensures |Log(es[..i])| + |EncodeEntry(es[i])| <= |Log(es)|
  {
    hide EncodeEntry;
    if i > 0 {
      LogSplit(es[1..], i - 1);
      assert es[..i][1..] == es[1..][..i - 1];
    }
  }
}
