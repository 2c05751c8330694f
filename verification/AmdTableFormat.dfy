/** The byte format of a register table: the encoders that build one and the decoding that the
    table interpreter performs at its cursor (xUSL/CCX/Common/AmdTable.h).

    A table is a byte string. Each entry is a 16-bit type followed by packed, little-endian
    data whose length depends on the type; the type 0xFFFF ends the table. */
module AmdTableFormat {
  import opened Options

  type byte = bv8

  /** SOC_LOGICAL_ID and CORE_LOGICAL_ID: bit masks of families and revisions. */
  datatype LogicalId = LogicalId(family: bv32, revision: bv16)

  datatype MsrData = MsrData(address: bv32, data: bv64, mask: bv64)

  datatype PciData = PciData(address: bv32, data: bv32, mask: bv32)

  /** The entry types 0 to 9, in the order of TABLE_ENTRY_TYPE. */
  datatype Entry =
    | Pci(pci: PciData)
    | PciProfileFixup(feats: bv32, pci: PciData)
    | PciCpuRev(id: LogicalId, pci: PciData)
    | Msr(msr: MsrData)
    | MsrCpuRev(id: LogicalId, msr: MsrData)
    | MsrCoreRev(id: LogicalId, msr: MsrData)
    | MsrPlatformFeat(feats: bv32, msr: MsrData)
    | MsrCpuRevPlatformFeat(id: LogicalId, feats: bv32, msr: MsrData)
    | Smn(instance: bv32, index: bv32, smnData: bv32, smnMask: bv32)
    | SmnMulti(instance: bv32, first: bv32, last: bv32, step: bv32, smnData: bv32, smnMask: bv32)

  const TABLE_TERMINATOR: bv16 := 0xFFFF
  const LAST_ENTRY_TYPE: bv16 := 9

  // ----- BSU16, BSU32, BSU64 and their inverses -----

  function Bsu16(x: bv16): (b: seq<byte>)
    ensures |b| == 2
  {
    [(x & 0xFF) as byte, ((x >> 8) & 0xFF) as byte]
  }

  function Bsu32(x: bv32): (b: seq<byte>)
    ensures |b| == 4
  {
    [(x & 0xFF) as byte, ((x >> 8) & 0xFF) as byte, ((x >> 16) & 0xFF) as byte, ((x >> 24) & 0xFF) as byte]
  }

  function Bsu64(x: bv64): (b: seq<byte>)
    ensures |b| == 8
  {
    [(x & 0xFF) as byte, ((x >> 8) & 0xFF) as byte, ((x >> 16) & 0xFF) as byte, ((x >> 24) & 0xFF) as byte,
     ((x >> 32) & 0xFF) as byte, ((x >> 40) & 0xFF) as byte, ((x >> 48) & 0xFF) as byte, ((x >> 56) & 0xFF) as byte]
  }

  function Le16(b: seq<byte>): (x: bv16)
    requires |b| == 2
  {
    (b[0] as bv16) | ((b[1] as bv16) << 8)
  }

  function Le32(b: seq<byte>): (x: bv32)
    requires |b| == 4
  {
    (b[0] as bv32) | ((b[1] as bv32) << 8) | ((b[2] as bv32) << 16) | ((b[3] as bv32) << 24)
  }

  function Le64(b: seq<byte>): (x: bv64)
    requires |b| == 8
  {
    (b[0] as bv64) | ((b[1] as bv64) << 8) | ((b[2] as bv64) << 16) | ((b[3] as bv64) << 24)
    | ((b[4] as bv64) << 32) | ((b[5] as bv64) << 40) | ((b[6] as bv64) << 48) | ((b[7] as bv64) << 56)
  }

  // ----- Entry types and sizes -----

  function TypeOf(e: Entry): (t: bv16) {
    match e
    case Pci(_) => 0
    case PciProfileFixup(_, _) => 1
    case PciCpuRev(_, _) => 2
    case Msr(_) => 3
    case MsrCpuRev(_, _) => 4
    case MsrCoreRev(_, _) => 5
    case MsrPlatformFeat(_, _) => 6
    case MsrCpuRevPlatformFeat(_, _, _) => 7
    case Smn(_, _, _, _) => 8
    case SmnMulti(_, _, _, _, _, _) => 9
  }

  /** The packed size of the data of an entry of type t: the amount its handler advances the cursor. */
  function DataSize(t: bv16): (n: nat)
    requires t <= LAST_ENTRY_TYPE
  {
    if t == 0 then 12
    else if t == 1 then 16
    else if t == 2 then 18
    else if t == 3 then 20
    else if t == 4 || t == 5 then 26
    else if t == 6 then 24
    else if t == 7 then 30
    else if t == 8 then 16
    else 24
  }

  // ----- Encoding -----

  function EncodeId(id: LogicalId): (b: seq<byte>)
    ensures |b| == 6
  {
    Bsu32(id.family) + Bsu16(id.revision)
  }

  function EncodeMsr(m: MsrData): (b: seq<byte>)
    ensures |b| == 20
  {
    Bsu32(m.address) + Bsu64(m.data) + Bsu64(m.mask)
  }

  function EncodePci(p: PciData): (b: seq<byte>)
    ensures |b| == 12
  {
    Bsu32(p.address) + Bsu32(p.data) + Bsu32(p.mask)
  }

  function EncodeData(e: Entry): (b: seq<byte>) {
    match e
    case Pci(pci) => EncodePci(pci)
    case PciProfileFixup(feats, pci) => Bsu32(feats) + EncodePci(pci)
    case PciCpuRev(id, pci) => EncodeId(id) + EncodePci(pci)
    case Msr(msr) => EncodeMsr(msr)
    case MsrCpuRev(id, msr) => EncodeId(id) + EncodeMsr(msr)
    case MsrCoreRev(id, msr) => EncodeId(id) + EncodeMsr(msr)
    case MsrPlatformFeat(feats, msr) => Bsu32(feats) + EncodeMsr(msr)
    case MsrCpuRevPlatformFeat(id, feats, msr) => EncodeId(id) + (Bsu32(feats) + EncodeMsr(msr))
    case Smn(instance, index, d, m) => (Bsu32(instance) + Bsu32(index)) + (Bsu32(d) + Bsu32(m))
    case SmnMulti(instance, first, last, step, d, m) =>
      (Bsu32(instance) + Bsu32(first)) + ((Bsu32(last) + Bsu32(step)) + (Bsu32(d) + Bsu32(m)))
  }

  function EncodeEntry(e: Entry): (b: seq<byte>) {
    Bsu16(TypeOf(e)) + EncodeData(e)
  }

  function EncodeTable(es: seq<Entry>): (b: seq<byte>) {
    if es == [] then Bsu16(TABLE_TERMINATOR) else EncodeEntry(es[0]) + EncodeTable(es[1..])
  }

  // ----- Decoding -----

  function DecodeId(d: seq<byte>): (id: LogicalId)
    requires |d| == 6
  {
    LogicalId(Le32(d[..4]), Le16(d[4..]))
  }

  function DecodeMsr(d: seq<byte>): (m: MsrData)
    requires |d| == 20
  {
    MsrData(Le32(d[..4]), Le64(d[4..12]), Le64(d[12..]))
  }

  function DecodePci(d: seq<byte>): (p: PciData)
    requires |d| == 12
  {
    PciData(Le32(d[..4]), Le32(d[4..8]), Le32(d[8..]))
  }

  /** What the handler for type t reads from the entry data under the cursor. */
  function DecodeData(t: bv16, d: seq<byte>): (e: Entry)
    requires t <= LAST_ENTRY_TYPE && |d| == DataSize(t)
    ensures TypeOf(e) == t
  {
    if t == 0 then Pci(DecodePci(d))
    else if t == 1 then PciProfileFixup(Le32(d[..4]), DecodePci(d[4..]))
    else if t == 2 then PciCpuRev(DecodeId(d[..6]), DecodePci(d[6..]))
    else if t == 3 then Msr(DecodeMsr(d))
    else if t == 4 then MsrCpuRev(DecodeId(d[..6]), DecodeMsr(d[6..]))
    else if t == 5 then MsrCoreRev(DecodeId(d[..6]), DecodeMsr(d[6..]))
    else if t == 6 then MsrPlatformFeat(Le32(d[..4]), DecodeMsr(d[4..]))
    else if t == 7 then MsrCpuRevPlatformFeat(DecodeId(d[..6]), Le32(d[6..10]), DecodeMsr(d[10..]))
    else if t == 8 then Smn(Le32(d[..4]), Le32(d[4..8]), Le32(d[8..12]), Le32(d[12..]))
    else SmnMulti(Le32(d[..4]), Le32(d[4..8]), Le32(d[8..12]), Le32(d[12..16]), Le32(d[16..20]), Le32(d[20..]))
  }

  /** The entries met by a cursor that starts at pos and the position just past the terminator.
      None when the bytes run out first or a type word outside 0..9 is met, on which the
      interpreter would read past the table, call a null handler or never advance. */
  function Parse(b: seq<byte>, pos: nat): (r: Option<(seq<Entry>, nat)>)
    decreases |b| - pos
  {
    if pos + 2 > |b| then None
    else
      var t := Le16(b[pos..pos + 2]);
      if t == TABLE_TERMINATOR then Some(([], pos + 2))
      else if t > LAST_ENTRY_TYPE || pos + 2 + DataSize(t) > |b| then None
      else
        var next := pos + 2 + DataSize(t);
        match Parse(b, next)
        case None => None
        case Some((es, end)) => Some(([DecodeData(t, b[pos + 2..next])] + es, end))
  }

  // ----- Proofs -----

  lemma FieldsRoundTrip(x16: bv16, x32: bv32, x64: bv64)
    ensures Le16(Bsu16(x16)) == x16
    ensures Le32(Bsu32(x32)) == x32
    ensures Le64(Bsu64(x64)) == x64
  {
  }

  lemma BytesRoundTrip16(b: seq<byte>)
    requires |b| == 2
    ensures Bsu16(Le16(b)) == b
  {
  }

  lemma BytesRoundTrip32(b: seq<byte>)
    requires |b| == 4
    ensures Bsu32(Le32(b)) == b
  {
  }

  lemma BytesRoundTrip64(b: seq<byte>)
    requires |b| == 8
    ensures Bsu64(Le64(b)) == b
  {
  }

  lemma SplitAppend<T>(a: seq<T>, b: seq<T>)
    ensures (a + b)[..|a|] == a
    ensures (a + b)[|a|..] == b
  {
  }

  lemma MsrRoundTrip(m: MsrData)
    ensures DecodeMsr(EncodeMsr(m)) == m
  {
    hide Bsu32, Bsu64, Le32, Le64;
    FieldsRoundTrip(0, m.address, m.data);
    FieldsRoundTrip(0, 0, m.mask);
    var d := EncodeMsr(m);
    assert d[..4] == Bsu32(m.address) && d[4..12] == Bsu64(m.data) && d[12..] == Bsu64(m.mask);
  }

  lemma PciRoundTrip(p: PciData)
    ensures DecodePci(EncodePci(p)) == p
  {
    hide Bsu32, Le32;
    FieldsRoundTrip(0, p.address, 0);
    FieldsRoundTrip(0, p.data, 0);
    FieldsRoundTrip(0, p.mask, 0);
    var d := EncodePci(p);
    assert d[..4] == Bsu32(p.address) && d[4..8] == Bsu32(p.data) && d[8..] == Bsu32(p.mask);
  }

  lemma IdRoundTrip(id: LogicalId)
    ensures DecodeId(EncodeId(id)) == id
  {
    hide Bsu16, Bsu32, Le16, Le32;
    FieldsRoundTrip(id.revision, id.family, 0);
    SplitAppend(Bsu32(id.family), Bsu16(id.revision));
  }

  lemma PairRoundTrip(x: bv32, y: bv32)
    ensures var d := Bsu32(x) + Bsu32(y); Le32(d[..4]) == x && Le32(d[4..]) == y
  {
    hide Bsu32, Le32;
    FieldsRoundTrip(0, x, 0);
    FieldsRoundTrip(0, y, 0);
    SplitAppend(Bsu32(x), Bsu32(y));
  }

  lemma DataRoundTrip(e: Entry)
    ensures |EncodeData(e)| == DataSize(TypeOf(e))
    ensures DecodeData(TypeOf(e), EncodeData(e)) == e
  {
    hide Bsu16, Bsu32, Bsu64, Le16, Le32, Le64, EncodeId, EncodePci, EncodeMsr, DecodeId, DecodePci, DecodeMsr;
    match e
    case Pci(pci) => PciRoundTrip(pci);
    case PciProfileFixup(feats, pci) =>
      SplitAppend(Bsu32(feats), EncodePci(pci));
      FieldsRoundTrip(0, feats, 0);
      PciRoundTrip(pci);
    case PciCpuRev(id, pci) =>
      SplitAppend(EncodeId(id), EncodePci(pci));
      IdRoundTrip(id);
      PciRoundTrip(pci);
    case Msr(msr) => MsrRoundTrip(msr);
    case MsrCpuRev(id, msr) =>
      SplitAppend(EncodeId(id), EncodeMsr(msr));
      IdRoundTrip(id);
      MsrRoundTrip(msr);
    case MsrCoreRev(id, msr) =>
      SplitAppend(EncodeId(id), EncodeMsr(msr));
      IdRoundTrip(id);
      MsrRoundTrip(msr);
    case MsrPlatformFeat(feats, msr) =>
      SplitAppend(Bsu32(feats), EncodeMsr(msr));
      FieldsRoundTrip(0, feats, 0);
      MsrRoundTrip(msr);
    case MsrCpuRevPlatformFeat(id, feats, msr) =>
      var d := EncodeData(e);
      assert d[..6] == EncodeId(id) && d[6..10] == Bsu32(feats) && d[10..] == EncodeMsr(msr);
      IdRoundTrip(id);
      FieldsRoundTrip(0, feats, 0);
      MsrRoundTrip(msr);
    case Smn(instance, index, data, mask) =>
      QuadRoundTrip(instance, index, data, mask);
    case SmnMulti(_, _, _, _, _, _) => SmnMultiRoundTrip(e);
  }

  lemma SmnMultiRoundTrip(e: Entry)
    requires e.SmnMulti?
    ensures |EncodeData(e)| == DataSize(TypeOf(e))
    ensures DecodeData(TypeOf(e), EncodeData(e)) == e
  {
    hide Bsu16, Bsu32, Bsu64, Le16, Le32, Le64, DecodePci, DecodeMsr, DecodeId;
    var SmnMulti(instance, first, last, step, data, mask) := e;
    QuadRoundTrip(instance, first, last, step);
    PairRoundTrip(data, mask);
    var q := (Bsu32(instance) + Bsu32(first)) + (Bsu32(last) + Bsu32(step));
    var h := Bsu32(data) + Bsu32(mask);
    var d := EncodeData(e);
    assert d == q + h;
    assert d[..4] == q[..4] && d[4..8] == q[4..8] && d[8..12] == q[8..12] && d[12..16] == q[12..];
    assert d[16..20] == h[..4] && d[20..] == h[4..];
  }

  lemma QuadRoundTrip(x: bv32, y: bv32, z: bv32, u: bv32)
    ensures var d := (Bsu32(x) + Bsu32(y)) + (Bsu32(z) + Bsu32(u));
            |d| == 16 && Le32(d[..4]) == x && Le32(d[4..8]) == y && Le32(d[8..12]) == z && Le32(d[12..]) == u
  {
    hide Bsu32, Le32;
    PairRoundTrip(x, y);
    PairRoundTrip(z, u);
    var a, b := Bsu32(x) + Bsu32(y), Bsu32(z) + Bsu32(u);
    var d := a + b;
    assert d[..4] == a[..4] && d[4..8] == a[4..] && d[8..12] == b[..4] && d[12..] == b[4..];
  }

  lemma MsrBytesRoundTrip(d: seq<byte>)
    requires |d| == 20
    ensures EncodeMsr(DecodeMsr(d)) == d
  {
    hide Bsu16, Bsu32, Bsu64, Le16, Le32, Le64;
    BytesRoundTrip32(d[..4]);
    BytesRoundTrip64(d[4..12]);
    BytesRoundTrip64(d[12..]);
    assert d == d[..4] + d[4..12] + d[12..];
  }

  lemma PciBytesRoundTrip(d: seq<byte>)
    requires |d| == 12
    ensures EncodePci(DecodePci(d)) == d
  {
    hide Bsu32, Le32;
    BytesRoundTrip32(d[..4]);
    BytesRoundTrip32(d[4..8]);
    BytesRoundTrip32(d[8..]);
  }

  lemma IdBytesRoundTrip(d: seq<byte>)
    requires |d| == 6
    ensures EncodeId(DecodeId(d)) == d
  {
    hide Bsu16, Bsu32, Le16, Le32;
    BytesRoundTrip32(d[..4]);
    BytesRoundTrip16(d[4..]);
    assert d == d[..4] + d[4..];
  }

  lemma DataBytesRoundTrip(t: bv16, d: seq<byte>)
    requires t <= LAST_ENTRY_TYPE && |d| == DataSize(t)
    ensures EncodeData(DecodeData(t, d)) == d
  {
    hide Bsu16, Bsu32, Bsu64, Le16, Le32, Le64, EncodeId, EncodePci, EncodeMsr, DecodeId, DecodePci, DecodeMsr;
    if t == 0 {
      PciBytesRoundTrip(d);
    } else if t == 1 {
      BytesRoundTrip32(d[..4]);
      PciBytesRoundTrip(d[4..]);
      assert d == d[..4] + d[4..];
    } else if t == 2 {
      IdBytesRoundTrip(d[..6]);
      PciBytesRoundTrip(d[6..]);
      assert d == d[..6] + d[6..];
    } else if t == 3 {
      MsrBytesRoundTrip(d);
    } else if t == 4 || t == 5 {
      IdBytesRoundTrip(d[..6]);
      MsrBytesRoundTrip(d[6..]);
      assert d == d[..6] + d[6..];
    } else if t == 6 {
      BytesRoundTrip32(d[..4]);
      MsrBytesRoundTrip(d[4..]);
      assert d == d[..4] + d[4..];
    } else if t == 7 {
      FeatBytesRoundTrip(d);
    } else if t == 8 {
      QuadBytesRoundTrip(d);
    } else {
      MultiBytesRoundTrip(d);
    }
  }

  lemma FeatBytesRoundTrip(d: seq<byte>)
    requires |d| == DataSize(7)
    ensures EncodeData(DecodeData(7, d)) == d
  {
    hide Bsu16, Bsu32, Bsu64, Le16, Le32, Le64, EncodeId, EncodeMsr, DecodeId, DecodeMsr;
    IdBytesRoundTrip(d[..6]);
    BytesRoundTrip32(d[6..10]);
    MsrBytesRoundTrip(d[10..]);
    assert d == d[..6] + (d[6..10] + d[10..]);
  }

  lemma MultiBytesRoundTrip(d: seq<byte>)
    requires |d| == DataSize(9)
    ensures EncodeData(DecodeData(9, d)) == d
  {
    hide Bsu16, Bsu32, Bsu64, Le16, Le32, Le64;
    QuadBytesRoundTrip(d[..16]);
    BytesRoundTrip32(d[16..20]);
    BytesRoundTrip32(d[20..]);
    var q := d[..16];
    assert q[..4] == d[..4] && q[4..8] == d[4..8] && q[8..12] == d[8..12] && q[12..] == d[12..16];
    assert d == d[..16] + (d[16..20] + d[20..]);
  }

  lemma QuadBytesRoundTrip(d: seq<byte>)
    requires |d| == 16
    ensures (Bsu32(Le32(d[..4])) + Bsu32(Le32(d[4..8]))) + (Bsu32(Le32(d[8..12])) + Bsu32(Le32(d[12..]))) == d
  {
    hide Bsu32, Le32;
    BytesRoundTrip32(d[..4]);
    BytesRoundTrip32(d[4..8]);
    BytesRoundTrip32(d[8..12]);
    BytesRoundTrip32(d[12..]);
  }

  /** Encoding then interpreting: wherever an encoded table lies among other bytes, the cursor
      decodes exactly its entries, in order, and stops just past the terminator. */
  lemma {:induction false} ParseEncode(pre: seq<byte>, es: seq<Entry>, post: seq<byte>)
    ensures Parse(pre + EncodeTable(es) + post, |pre|) == Some((es, |pre| + |EncodeTable(es)|))
    decreases |es|
  {
    hide *;
    var b := pre + EncodeTable(es) + post;
    if es == [] {
      EncodeNone();
      FieldsRoundTrip(TABLE_TERMINATOR, 0, 0);
      Middle(pre, Bsu16(TABLE_TERMINATOR), post);
      ParseEnd(b, |pre|);
    } else {
      var e, rest := es[0], EncodeTable(es[1..]);
      assert [e] + es[1..] == es;
      EncodeCons(e, es[1..]);
      assert b == pre + EncodeEntry(e) + rest + post;
      ParseEncode(pre + EncodeEntry(e), es[1..], post);
      DataRoundTrip(e);
      FieldsRoundTrip(TypeOf(e), 0, 0);
      EntryBytes(pre, e, rest, post);
      ParseStep(b, |pre|, e, es[1..], |pre| + |EncodeEntry(e)| + |rest|);
    }
  }

  lemma Middle(pre: seq<byte>, m: seq<byte>, post: seq<byte>)
    ensures (pre + m + post)[|pre|..|pre| + |m|] == m
  {
  }

  lemma EncodeNone()
    ensures EncodeTable([]) == Bsu16(TABLE_TERMINATOR) && |Bsu16(TABLE_TERMINATOR)| == 2
  {
  }

  lemma EncodeCons(e: Entry, es: seq<Entry>)
    ensures EncodeTable([e] + es) == EncodeEntry(e) + EncodeTable(es)
    ensures EncodeEntry(e) == Bsu16(TypeOf(e)) + EncodeData(e)
  {
    hide EncodeData, TypeOf;
    assert ([e] + es)[1..] == es;
  }

  lemma ParseEnd(b: seq<byte>, pos: nat)
    requires pos + 2 <= |b| && Le16(b[pos..pos + 2]) == TABLE_TERMINATOR
    ensures Parse(b, pos) == Some(([], pos + 2))
  {
  }

  lemma ParseStep(b: seq<byte>, pos: nat, e: Entry, es: seq<Entry>, end: nat)
    requires var next := pos + 2 + DataSize(TypeOf(e));
             && next <= |b| && Le16(b[pos..pos + 2]) == TypeOf(e)
             && DecodeData(TypeOf(e), b[pos + 2..next]) == e && Parse(b, next) == Some((es, end))
    ensures Parse(b, pos) == Some(([e] + es, end))
  {
    hide Le16, DecodeData;
  }

  /** Where the type word and the data of an entry stand. */
  lemma EntryBytes(pre: seq<byte>, e: Entry, rest: seq<byte>, post: seq<byte>)
    ensures var b := pre + EncodeEntry(e) + rest + post;
            && |EncodeEntry(e)| == 2 + |EncodeData(e)|
            && b[|pre|..|pre| + 2] == Bsu16(TypeOf(e))
            && b[|pre| + 2..|pre| + 2 + |EncodeData(e)|] == EncodeData(e)
  {
    hide EncodeData, TypeOf;
  }

  /** A byte string that parses: it ends here, or an entry stands here and the rest parses. */
  lemma ParseCases(b: seq<byte>, pos: nat)
    requires Parse(b, pos).Some?
    ensures pos + 2 <= |b|
    ensures var t := Le16(b[pos..pos + 2]);
            if t == TABLE_TERMINATOR then Parse(b, pos).value == ([], pos + 2)
            else
              && t <= LAST_ENTRY_TYPE && pos + 2 + DataSize(t) <= |b|
              && var next := pos + 2 + DataSize(t);
              && Parse(b, next).Some?
              && Parse(b, pos).value
                 == ([DecodeData(t, b[pos + 2..next])] + Parse(b, next).value.0, Parse(b, next).value.1)
  {
    hide Le16, DecodeData, DataSize;
  }

  lemma ThreeSlices(b: seq<byte>, i: nat, j: nat, k: nat, l: nat)
    requires i <= j <= k <= l <= |b|
    ensures b[i..l] == (b[i..j] + b[j..k]) + b[k..l]
  {
  }

  /** Interpreting then encoding: a byte string the interpreter can run to its terminator is the
      encoding of the entries it decodes, byte for byte. */
  lemma {:induction false} EncodeParse(b: seq<byte>, pos: nat)
    requires Parse(b, pos).Some?
    ensures var (es, end) := Parse(b, pos).value;
            pos <= end <= |b| && b[pos..end] == EncodeTable(es)
    decreases |b| - pos
  {
    hide *;
    ParseCases(b, pos);
    var t := Le16(b[pos..pos + 2]);
    BytesRoundTrip16(b[pos..pos + 2]);
    if t == TABLE_TERMINATOR {
      EncodeNone();
    } else {
      var next := pos + 2 + DataSize(t);
      var d := b[pos + 2..next];
      DataBytesRoundTrip(t, d);
      EncodeParse(b, next);
      var (es, end) := Parse(b, next).value;
      EncodeCons(DecodeData(t, d), es);
      ThreeSlices(b, pos, pos + 2, next, end);
    }
  }

  /** The format is prefix free: the same bytes never hold two different tables. */
  lemma TableEncodingUnique(es: seq<Entry>, post: seq<byte>, es': seq<Entry>, post': seq<byte>)
    requires EncodeTable(es) + post == EncodeTable(es') + post'
    ensures es == es' && post == post'
  {
    hide *;
    ParseEncode([], es, post);
    ParseEncode([], es', post');
    assert [] + EncodeTable(es) + post == EncodeTable(es) + post;
    assert [] + EncodeTable(es') + post' == EncodeTable(es') + post';
    SplitAppend(EncodeTable(es), post);
    SplitAppend(EncodeTable(es'), post');
  }
}
