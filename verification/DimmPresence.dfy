/** The DIMM presence map (xPRF/Mem/xPrfMem.c, xPRF/Mem/xPrfMem.h): one 32-bit word per socket and
    die, one bit per platform channel and DIMM. */
module DimmPresence {
  import opened BitUtils
  import opened Bytes
  import opened SilStatus

  // ----- Bits of a word -----

  /** w | (1 << n) */
  function SetBit(w: uint32, n: nat): (r: uint32)
    requires n < 32
  {
    SetBitInWord(w, n);
    Or(w, Pow2(n))
  }

  lemma SetBitInWord(w: uint32, n: nat)
    requires n < 32
    ensures Or(w, Pow2(n)) < 0x1_0000_0000
  {
    hide Pow2, Or;
    Powers();
    Pow2Below(n, 32);
    OrBelow(w, Pow2(n), 32);
  }

  lemma BitOfSetBit(w: uint32, n: nat, k: nat)
    requires n < 32
    ensures Bit(SetBit(w, n), k) == (n == k || Bit(w, k))
  {
    hide Bit, Or, Pow2;
    OrBit(w, Pow2(n), k);
    Pow2Bit(n, k);
  }

  // ----- Channels on the platform -----

  datatype Xlat = Xlat(requested: uint8, translated: uint8)

  /** Sp5ChannelXlatTable */
  const SP5_XLAT := [
    Xlat(0, 2), Xlat(1, 4), Xlat(2, 5), Xlat(3, 0), Xlat(4, 1), Xlat(5, 3),
    Xlat(6, 8), Xlat(7, 10), Xlat(8, 11), Xlat(9, 6), Xlat(10, 7), Xlat(11, 9), Xlat(0xFF, 0xFF)]

  /** The platform channel of each of the twelve channels; other channels keep their number. */
  const PLATFORM_CHANNEL: seq<uint8> := [2, 4, 5, 0, 1, 3, 8, 10, 11, 6, 7, 9]

  function Translated(channel: uint8): (t: uint8) {
    if channel < 12 then PLATFORM_CHANNEL[channel] else channel
  }

  /** TranslateChannelInfo with the table of the platform. */
  method TranslateChannelInfo(channel: uint8) returns (t: uint8)
    ensures t == Translated(channel)
  {
    t := channel;
    var i := 0;
    while SP5_XLAT[i].requested != 0xFF
      invariant 0 <= i <= 12
      invariant forall j :: 0 <= j < i ==> SP5_XLAT[j].requested != channel
      decreases 12 - i
    {
      TableEntry(i);
      if channel == SP5_XLAT[i].requested {
        t := SP5_XLAT[i].translated;
        return;
      }
      i := i + 1;
    }
    TableEntry(i);
    TableEntry(if channel < 12 then channel else 12);
  }

  /** The table lists the twelve channels in order before its end mark. */
  lemma TableEntry(i: nat)
    requires i <= 12
    ensures |SP5_XLAT| == 13
    ensures i < 12 ==> SP5_XLAT[i] == Xlat(i, PLATFORM_CHANNEL[i])
    ensures i == 12 ==> SP5_XLAT[i].requested == 0xFF
  {
  }

  /** The translation permutes the twelve channels and is injective. */
  lemma TranslationInjective(c: uint8, c': uint8)
    ensures Translated(c) == Translated(c') ==> c == c'
    ensures Translated(c) < 12 <==> c < 12
  {
  }

  // ----- The position of a DIMM -----

  /** The bit of a DIMM in the word of its die. */
  function Position(channel: uint8, dimm: nat, maxDimm: nat): (n: nat) {
    Translated(channel) * maxDimm + dimm
  }

  /** The bits of a channel lie in the word. */
  predicate Room(channel: uint8, maxDimm: nat) {
    Translated(channel) * maxDimm + maxDimm <= 32
  }

  /** So do those of the first n channels; up to 16 channels this needs no more than 2 DIMMs each. */
  predicate InWord(n: nat, maxDimm: nat) {
    n <= 256 && forall c :: 0 <= c < n ==> Room(c, maxDimm)
  }

  lemma SixteenChannels(n: nat, maxDimm: nat)
    requires n <= 16 && maxDimm <= 2
    ensures InWord(n, maxDimm)
  {
    forall c: uint8 | c < n
      ensures Room(c, maxDimm)
    {
      TranslationInjective(c, c);
      assert Translated(c) < 16;
    }
  }

  lemma PositionInjective(c: uint8, d: nat, c': uint8, d': nat, maxDimm: nat)
    requires d < maxDimm && d' < maxDimm
    ensures Position(c, d, maxDimm) == Position(c', d', maxDimm) ==> c == c' && d == d'
    ensures Room(c, maxDimm) ==> Position(c, d, maxDimm) < 32
  {
    hide Translated;
    TranslationInjective(c, c');
    if Translated(c) < Translated(c') {
      LowerRow(Translated(c), Translated(c'), maxDimm);
    } else if Translated(c') < Translated(c) {
      LowerRow(Translated(c'), Translated(c), maxDimm);
    }
  }

  lemma {:induction false} LowerRow(t: nat, t': nat, m: nat)
    requires t < t'
    ensures t * m + m <= t' * m
    decreases t'
  {
    assert t' * m == (t' - 1) * m + m;
    if t < t' - 1 {
      LowerRow(t, t' - 1, m);
    }
  }

  // ----- One die -----

  /** The DIMM sizes of a die: at least maxChannel rows of maxDimm sizes. */
  type Sizes = seq<seq<uint32>>

  predicate Covers(sizes: Sizes, maxChannel: nat, maxDimm: nat) {
    maxChannel <= |sizes| && forall c :: 0 <= c < maxChannel ==> maxDimm <= |sizes[c]|
  }

  /** Some DIMM of the first n channels that is present has its bit at p. */
  ghost predicate Marks(sizes: Sizes, n: nat, maxDimm: nat, p: nat)
    requires n <= 256 && Covers(sizes, n, maxDimm)
  {
    exists c, d :: 0 <= c < n && 0 <= d < maxDimm && IsMark(sizes, c, d, maxDimm, p)
  }

  predicate IsMark(sizes: Sizes, c: uint8, d: nat, maxDimm: nat, p: nat)
    requires c < |sizes| && d < |sizes[c]|
  {
    sizes[c][d] != 0 && Position(c, d, maxDimm) == p
  }

  /** The channel and DIMM loops of BuildMemoryInfoData. */
  method FillDie(word: uint32, sizes: Sizes, maxChannel: nat, maxDimm: nat) returns (w: uint32)
    requires InWord(maxChannel, maxDimm) && Covers(sizes, maxChannel, maxDimm)
    ensures forall p :: 0 <= p < 32 ==> Bit(w, p) == (Bit(word, p) || Marks(sizes, maxChannel, maxDimm, p))
  {
    hide Bit, SetBit;
    w := word;
    for c := 0 to maxChannel
      invariant forall p :: 0 <= p < 32 ==> Bit(w, p) == (Bit(word, p) || Marks(sizes, c, maxDimm, p))
    {
      w := FillChannel(w, sizes, c, maxDimm);
    }
  }

  method FillChannel(word: uint32, sizes: Sizes, c: uint8, maxDimm: nat) returns (w: uint32)
    requires Room(c, maxDimm) && Covers(sizes, c + 1, maxDimm)
    ensures forall p :: 0 <= p < 32 ==>
              Bit(w, p) == (Bit(word, p) || exists d :: 0 <= d < maxDimm && IsMark(sizes, c, d, maxDimm, p))
  {
    hide Bit, SetBit, Translated;
    w := word;
    var platform := TranslateChannelInfo(c);
    for d := 0 to maxDimm
      invariant forall p :: 0 <= p < 32 ==>
                  Bit(w, p) == (Bit(word, p) || exists e :: 0 <= e < d && IsMark(sizes, c, e, maxDimm, p))
    {
      if sizes[c][d] != 0 {
        var n := platform * maxDimm + d;
        assert n == Position(c, d, maxDimm);
        PositionInjective(c, d, c, d, maxDimm);
        forall p | 0 <= p < 32
          ensures Bit(SetBit(w, n), p) == (IsMark(sizes, c, d, maxDimm, p) || Bit(w, p))
        {
          BitOfSetBit(w, n, p);
        }
        w := SetBit(w, n);
      }
    }
  }

  // ----- All dies -----

  /** What the boot loader reports for one die: the status of the lookup and, on success, the sizes. */
  datatype Lookup = Lookup(status: Status, sizes: Sizes)

  /** The summary's dimensions. */
  datatype Shape = Shape(sockets: nat, dies: nat, channels: nat, dimms: nat)

  type Lookups = seq<seq<Lookup>>

  function Slot(shape: Shape, socket: nat, die: nat): nat {
    socket * shape.dies + die
  }

  /** The lookups cover the shape, and the shape is one the bit map has room for. */
  predicate Fits(shape: Shape, lookups: Lookups) {
    && InWord(shape.channels, shape.dimms)
    && |lookups| == shape.sockets
    && (forall s :: 0 <= s < |lookups| ==> RowFits(shape, lookups[s]))
  }

  predicate RowFits(shape: Shape, row: seq<Lookup>) {
    && |row| == shape.dies
    && (forall d :: 0 <= d < |row| ==> row[d].status.SilPass? ==> Covers(row[d].sizes, shape.channels, shape.dimms))
  }

  /** The word of a die after the loops, from the word before them. */
  ghost predicate DieWord(shape: Shape, look: Lookup, before: uint32, after: uint32)
    requires shape.channels <= 256
    requires look.status.SilPass? ==> Covers(look.sizes, shape.channels, shape.dimms)
  {
    if look.status.SilPass? then
      forall p :: 0 <= p < 32 ==> Bit(after, p) == (Bit(before, p) || Marks(look.sizes, shape.channels, shape.dimms, p))
    else
      after == before
  }

  /** The words of the first k dies of a socket. */
  ghost predicate SocketWords(shape: Shape, row: seq<Lookup>, socket: nat, k: nat,
                              before: seq<uint32>, after: seq<uint32>)
    requires shape.channels <= 256 && RowFits(shape, row) && k <= shape.dies
    requires |before| == |after| && Slot(shape, socket, k) <= |after|
  {
    forall d :: 0 <= d < k ==> DieWord(shape, row[d], before[Slot(shape, socket, d)], after[Slot(shape, socket, d)])
  }

  lemma SlotsBefore(shape: Shape, s: nat, t: nat)
    requires s < t
    ensures Slot(shape, s, shape.dies) == Slot(shape, s + 1, 0) <= Slot(shape, t, 0)
  {
    LowerRow(s, t, shape.dies);
    assert (s + 1) * shape.dies == s * shape.dies + shape.dies;
  }

  method BuildSocket(words: array<uint32>, shape: Shape, row: seq<Lookup>, socket: nat, status: Status)
    returns (last: Status)
    requires InWord(shape.channels, shape.dimms) && RowFits(shape, row)
    requires Slot(shape, socket, shape.dies) <= words.Length
    modifies words
    ensures SocketWords(shape, row, socket, shape.dies, old(words[..]), words[..])
    ensures forall i :: 0 <= i < words.Length ==>
              !(Slot(shape, socket, 0) <= i < Slot(shape, socket, shape.dies)) ==> words[i] == old(words[i])
    ensures last == if shape.dies == 0 then status else row[shape.dies - 1].status
  {
    hide Bit, Marks, Covers;
    last := status;
    for die := 0 to shape.dies
      invariant SocketWords(shape, row, socket, die, old(words[..]), words[..])
      invariant forall i :: 0 <= i < words.Length ==>
                  !(Slot(shape, socket, 0) <= i < Slot(shape, socket, die)) ==> words[i] == old(words[i])
      invariant last == if die == 0 then status else row[die - 1].status
    {
      last := row[die].status;
      if last.SilPass? {
        var slot := Slot(shape, socket, die);
        words[slot] := FillDie(words[slot], row[die].sizes, shape.channels, shape.dimms);
      }
    }
  }

  /** The words of the map, one per socket and die. */
  function MapLength(shape: Shape): nat {
    Slot(shape, shape.sockets, 0)
  }

  /** The clearing before the loops: words 0 and 1, whatever the length of the map. */
  function Cleared(words: seq<uint32>): (r: seq<uint32>)
    ensures |r| == |words|
  {
    seq(|words|, i requires 0 <= i < |words| => if i < 2 then 0 else words[i])
  }

  /** The map after the call, from the map before it. */
  ghost predicate Built(shape: Shape, lookups: Lookups, before: seq<uint32>, after: seq<uint32>)
    requires Fits(shape, lookups) && |before| == |after| == MapLength(shape)
  {
    WordsOf(shape, lookups, shape.sockets, Cleared(before), after)
  }

  /** The words of the first n sockets. */
  ghost predicate WordsOf(shape: Shape, lookups: Lookups, n: nat, before: seq<uint32>, after: seq<uint32>)
    requires Fits(shape, lookups) && n <= shape.sockets
    requires |before| == |after| && Slot(shape, n, 0) <= |after|
  {
    forall s :: 0 <= s < n ==>
      (SlotsBefore(shape, s, n); SocketWords(shape, lookups[s], s, shape.dies, before, after))
  }

  /** One more socket: its words are written from the cleared map, the earlier ones are kept. */
  lemma ExtendWords(shape: Shape, lookups: Lookups, n: nat, before: seq<uint32>, mid: seq<uint32>, after: seq<uint32>)
    requires Fits(shape, lookups) && n < shape.sockets
    requires |before| == |mid| == |after|
    requires Slot(shape, n, 0) <= Slot(shape, n + 1, 0) == Slot(shape, n, shape.dies) <= |after|
    requires WordsOf(shape, lookups, n, before, mid)
    requires forall i :: Slot(shape, n, 0) <= i < |mid| ==> mid[i] == before[i]
    requires SocketWords(shape, lookups[n], n, shape.dies, mid, after)
    requires forall i :: 0 <= i < |mid| ==>
               !(Slot(shape, n, 0) <= i < Slot(shape, n, shape.dies)) ==> after[i] == mid[i]
    ensures WordsOf(shape, lookups, n + 1, before, after)
  {
    hide DieWord;
    forall s | 0 <= s < n + 1
      ensures (SlotsBefore(shape, s, n + 1); SocketWords(shape, lookups[s], s, shape.dies, before, after))
    {
      SlotsBefore(shape, s, n + 1);
      if s < n {
        SlotsBefore(shape, s, n);
        assert SocketWords(shape, lookups[s], s, shape.dies, before, mid);
      }
      forall d | 0 <= d < shape.dies
        ensures DieWord(shape, lookups[s][d], before[Slot(shape, s, d)], after[Slot(shape, s, d)])
      {
        assert Slot(shape, s, 0) <= Slot(shape, s, d) < Slot(shape, s, shape.dies);
      }
    }
  }

  /** Words behind the map do not matter to it. */
  lemma MapOnly(shape: Shape, lookups: Lookups, before: seq<uint32>, after: seq<uint32>)
    requires Fits(shape, lookups) && |before| == |after| && MapLength(shape) <= |after|
    requires WordsOf(shape, lookups, shape.sockets, Cleared(before), after)
    ensures Built(shape, lookups, before[..MapLength(shape)], after[..MapLength(shape)])
  {
    hide DieWord;
    var n := MapLength(shape);
    var b, a := before[..n], after[..n];
    forall s | 0 <= s < shape.sockets
      ensures (SlotsBefore(shape, s, shape.sockets); SocketWords(shape, lookups[s], s, shape.dies, Cleared(b), a))
    {
      SlotsBefore(shape, s, shape.sockets);
      assert SocketWords(shape, lookups[s], s, shape.dies, Cleared(before), after);
      forall d | 0 <= d < shape.dies
        ensures DieWord(shape, lookups[s][d], Cleared(b)[Slot(shape, s, d)], a[Slot(shape, s, d)])
      {
        assert Slot(shape, s, d) < Slot(shape, s, shape.dies);
      }
    }
  }

  /** BuildMemoryInfoData, restricted to the presence map. The words are the memory from the start of the
      map on, which may be longer than the map. */
  method BuildMemoryInfoData(words: array<uint32>, shape: Shape, lookups: Lookups) returns (status: Status)
    requires Fits(shape, lookups)
    requires 2 <= words.Length && MapLength(shape) <= words.Length
    modifies words
    ensures Built(shape, lookups, old(words[..])[..MapLength(shape)], words[..][..MapLength(shape)])
    ensures Behind(shape, old(words[..]), words[..])
    ensures forall i :: 0 <= i < words.Length && !Writes(shape, i) ==> words[i] == old(words[i])
    ensures status == if shape.sockets == 0 || shape.dies == 0 then SilPass
                      else lookups[shape.sockets - 1][shape.dies - 1].status
  {
    hide DieWord;
    status := SilPass;
    words[0] := 0;
    words[1] := 0;
    ghost var cleared := words[..];
    assert cleared == Cleared(old(words[..]));
    for socket := 0 to shape.sockets
      invariant Slot(shape, socket, 0) <= words.Length
      invariant WordsOf(shape, lookups, socket, cleared, words[..])
      invariant forall i :: Slot(shape, socket, 0) <= i < words.Length ==> words[i] == cleared[i]
      invariant status == if socket == 0 || shape.dies == 0 then SilPass
                          else lookups[socket - 1][shape.dies - 1].status
    {
      ghost var words0 := words[..];
      SlotsBefore(shape, socket, shape.sockets);
      status := BuildSocket(words, shape, lookups[socket], socket, status);
      ExtendWords(shape, lookups, socket, cleared, words0, words[..]);
    }
    MapOnly(shape, lookups, old(words[..]), words[..]);
  }

  // ----- Writes behind the map -----

  /** The memory behind the map after the call. */
  ghost predicate Behind(shape: Shape, before: seq<uint32>, after: seq<uint32>)
    requires |before| == |after|
  {
    forall i :: MapLength(shape) <= i < |after| ==> after[i] == if i < 2 then 0 else before[i]
  }

  /** The words that the call writes: the two it clears and those of the dies. */
  predicate Writes(shape: Shape, i: nat) {
    i == 0 || i == 1 || i < MapLength(shape)
  }

  /** All writes stay in the map if and only if it has two words or more. */
  lemma StaysInsideIff(shape: Shape)
    ensures (forall i: nat :: Writes(shape, i) ==> i < MapLength(shape)) <==> 2 <= MapLength(shape)
  {
    hide MapLength;
    assert Writes(shape, 0) && Writes(shape, 1);
  }

  /** Memory behind the map survives if and only if the words the clearing reaches there were 0. */
  lemma BehindKeptIff(shape: Shape, before: seq<uint32>, after: seq<uint32>)
    requires |before| == |after| && Behind(shape, before, after)
    ensures (forall i :: MapLength(shape) <= i < |after| ==> after[i] == before[i]) <==>
            (forall i :: MapLength(shape) <= i < |before| && i < 2 ==> before[i] == 0)
    ensures 2 <= MapLength(shape) ==> forall i :: MapLength(shape) <= i < |after| ==> after[i] == before[i]
  {
    hide MapLength;
  }

  /** With one socket of one die the map has one word, and the call clears the word behind it. */
  lemma OneWordExample(channels: nat, dimms: nat, before: seq<uint32>, after: seq<uint32>)
    requires |before| == |after| == 2 && Behind(Shape(1, 1, channels, dimms), before, after)
    ensures MapLength(Shape(1, 1, channels, dimms)) == 1 && after[1] == 0
  {
  }

  // ----- Reading the map -----

  /** GetDimmPresence on a non-null summary. */
  function GetDimmPresence(shape: Shape, words: seq<uint32>, socket: nat, die: nat, channel: uint8, dimm: nat)
    : (r: uint8)
    requires Slot(shape, socket, die) < |words| && channel * shape.dimms + dimm < 32
  {
    Shifted(words[Slot(shape, socket, die)], channel * shape.dimms + dimm) % 2
  }

  /** Bits 2k and 2k + 1 are DIMMs 0 and 1 of platform channel k (Include/xPRF-api.h:119); the words of a
      socket lie together. Channel 3 is platform channel 0, channel 0 is platform channel 2. */
  lemma BitExample()
    ensures Position(3, 0, 2) == 0 && Position(3, 1, 2) == 1 && Position(0, 0, 2) == 4 && Position(8, 1, 2) == 23
  {
    PlatformChannels();
    hide Translated;
  }

  lemma PlatformChannels()
    ensures Translated(3) == 0 && Translated(0) == 2 && Translated(8) == 11
  {
  }

  lemma SlotExample(shape: Shape)
    requires shape.sockets == 2 && shape.dies == 3
    ensures Slot(shape, 0, 2) == 2 && Slot(shape, 1, 0) == 3 && MapLength(shape) == 6
  {
  }

  /** Bit 5 alone is DIMM 1 of platform channel 2. */
  lemma ReadExample(shape: Shape)
    requires shape.dies == 1 && shape.dimms == 2
    ensures GetDimmPresence(shape, [0x20], 0, 0, 2, 1) == 1
    ensures GetDimmPresence(shape, [0x20], 0, 0, 2, 0) == 0 && GetDimmPresence(shape, [0x20], 0, 0, 1, 1) == 0
  {
    assert Shifted(0x20, 2) == 8;
    assert Shifted(0x20, 4) == Shifted(0x20, 3) / 2;
  }

  lemma OddBit(v: nat)
    ensures Bit(v, 0) <==> v % 2 == 1
  {
  }

  /** In a die's word, the bit of a DIMM is marked by that DIMM only. */
  lemma MarkedByItself(sizes: Sizes, n: nat, maxDimm: nat, c: uint8, d: nat)
    requires n <= 256 && Covers(sizes, n, maxDimm) && c < n && d < maxDimm
    ensures Marks(sizes, n, maxDimm, Position(c, d, maxDimm)) <==> sizes[c][d] != 0
  {
    hide Position;
    if sizes[c][d] != 0 {
      assert IsMark(sizes, c, d, maxDimm, Position(c, d, maxDimm));
    } else if Marks(sizes, n, maxDimm, Position(c, d, maxDimm)) {
      var c', d' :| 0 <= c' < n && 0 <= d' < maxDimm && IsMark(sizes, c', d', maxDimm, Position(c, d, maxDimm));
      PositionInjective(c, d, c', d', maxDimm);
    }
  }

  predicate Installed(look: Lookup, c: uint8, d: nat)
    requires look.status.SilPass? ==> c < |look.sizes| && d < |look.sizes[c]|
  {
    look.status.SilPass? && look.sizes[c][d] != 0
  }

  /** The presence read back at the platform channel: an installed DIMM, or a bit the clearing left behind. */
  lemma PresenceIff(shape: Shape, lookups: Lookups, before: seq<uint32>, after: seq<uint32>,
                    socket: nat, die: nat, c: uint8, d: nat)
    requires Fits(shape, lookups)
    requires |before| == |after| == MapLength(shape)
    requires Built(shape, lookups, before, after)
    requires socket < shape.sockets && die < shape.dies && c < shape.channels && d < shape.dimms
    ensures Slot(shape, socket, die) < |after| && Position(c, d, shape.dimms) < 32
    ensures GetDimmPresence(shape, after, socket, die, Translated(c), d) == 1 <==>
            || Installed(lookups[socket][die], c, d)
            || (2 <= Slot(shape, socket, die) && Bit(before[Slot(shape, socket, die)], Position(c, d, shape.dimms)))
  {
    hide Bit, Marks;
    PositionInjective(c, d, c, d, shape.dimms);
    SlotsBefore(shape, socket, shape.sockets);
    var slot, p, look := Slot(shape, socket, die), Position(c, d, shape.dimms), lookups[socket][die];
    assert SocketWords(shape, lookups[socket], socket, shape.dies, Cleared(before), after);
    assert DieWord(shape, look, Cleared(before)[slot], after[slot]);
    ZeroBit(p);
    ShiftedBit(after[slot], p, 0);
    OddBit(Shifted(after[slot], p));
    if look.status.SilPass? {
      MarkedByItself(look.sizes, shape.channels, shape.dimms, c, d);
    }
  }

  /** A bit of the die's word that was set before the call for a DIMM that is not installed. */
  ghost predicate StaleBit(shape: Shape, look: Lookup, word: uint32)
    requires InWord(shape.channels, shape.dimms)
    requires look.status.SilPass? ==> Covers(look.sizes, shape.channels, shape.dimms)
  {
    exists c, d :: 0 <= c < shape.channels && 0 <= d < shape.dimms && IsStale(shape, look, word, c, d)
  }

  predicate IsStale(shape: Shape, look: Lookup, word: uint32, c: uint8, d: nat)
    requires InWord(shape.channels, shape.dimms) && c < shape.channels && d < shape.dimms
    requires look.status.SilPass? ==> Covers(look.sizes, shape.channels, shape.dimms)
  {
    PositionInjective(c, d, c, d, shape.dimms);
    Bit(word, Position(c, d, shape.dimms)) && !Installed(look, c, d)
  }

  ghost predicate ExactFor(shape: Shape, look: Lookup, after: seq<uint32>, socket: nat, die: nat)
    requires InWord(shape.channels, shape.dimms) && Slot(shape, socket, die) < |after|
    requires look.status.SilPass? ==> Covers(look.sizes, shape.channels, shape.dimms)
  {
    forall c, d :: 0 <= c < shape.channels && 0 <= d < shape.dimms ==> ReadsBack(shape, look, after, socket, die, c, d)
  }

  predicate ReadsBack(shape: Shape, look: Lookup, after: seq<uint32>, socket: nat, die: nat, c: uint8, d: nat)
    requires InWord(shape.channels, shape.dimms) && c < shape.channels && d < shape.dimms
    requires look.status.SilPass? ==> Covers(look.sizes, shape.channels, shape.dimms)
    requires Slot(shape, socket, die) < |after|
  {
    PositionInjective(c, d, c, d, shape.dimms);
    GetDimmPresence(shape, after, socket, die, Translated(c), d) == 1 <==> Installed(look, c, d)
  }

  /** The map of a die is exact precisely when its word was cleared or held no stale bit. */
  lemma PresenceExactIff(shape: Shape, lookups: Lookups, before: seq<uint32>, after: seq<uint32>, socket: nat, die: nat)
    requires Fits(shape, lookups)
    requires |before| == |after| == MapLength(shape)
    requires Built(shape, lookups, before, after)
    requires socket < shape.sockets && die < shape.dies
    ensures Slot(shape, socket, die) < |after|
    ensures ExactFor(shape, lookups[socket][die], after, socket, die) <==>
            (Slot(shape, socket, die) < 2 || !StaleBit(shape, lookups[socket][die], before[Slot(shape, socket, die)]))
  {
    hide Bit, Built, GetDimmPresence, Position, Installed, Fits;
    SlotsBefore(shape, socket, shape.sockets);
    LookupFits(shape, lookups, socket, die);
    var look := lookups[socket][die];
    forall c, d | 0 <= c < shape.channels && 0 <= d < shape.dimms
      ensures ReadsBack(shape, look, after, socket, die, c, d) <==>
              (Slot(shape, socket, die) < 2 || !IsStale(shape, look, before[Slot(shape, socket, die)], c, d))
    {
      PresenceIff(shape, lookups, before, after, socket, die, c, d);
    }
  }

  lemma LookupFits(shape: Shape, lookups: Lookups, socket: nat, die: nat)
    requires Fits(shape, lookups) && socket < shape.sockets && die < shape.dies
    ensures |lookups| == shape.sockets && |lookups[socket]| == shape.dies
    ensures InWord(shape.channels, shape.dimms)
    ensures lookups[socket][die].status.SilPass? ==> Covers(lookups[socket][die].sizes, shape.channels, shape.dimms)
  {
    assert RowFits(shape, lookups[socket]);
  }

  /** Only the first two words are cleared, so a third die keeps reporting a DIMM that is gone. */
  lemma StaleExample()
    ensures var shape := Shape(3, 1, 1, 1);
            var lookups := seq(3, _ => [Lookup(SilPass, [[0]])]);
            var words: seq<uint32> := [0, 0, 4];
            && Fits(shape, lookups)
            && Built(shape, lookups, words, words)
            && !Installed(lookups[2][0], 0, 0)
            && GetDimmPresence(shape, words, 2, 0, Translated(0), 0) == 1
  {
    var shape := Shape(3, 1, 1, 1);
    var lookups := seq(3, _ => [Lookup(SilPass, [[0]])]);
    var words: seq<uint32> := [0, 0, 4];
    assert Cleared(words) == words;
    assert Bit(4, 2);
    forall p: nat
      ensures !Marks([[0]], 1, 1, p)
    {
    }
    assert WordsOf(shape, lookups, 3, words, words);
  }
}
