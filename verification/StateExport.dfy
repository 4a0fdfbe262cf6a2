/** The byte form of a whole ratchet state, as device linking exports and imports it. */
module StateExport {
  import opened Common
  import opened ByteCodec

  const EK_LEN: nat := 1184
  const DK_LEN: nat := 64
  const PAIR_LEN: nat := DK_LEN + EK_LEN

  type Dk = b: Bytes | |b| == DK_LEN witness seq(DK_LEN, _ => 0)
  type Ek = b: Bytes | |b| == EK_LEN witness seq(EK_LEN, _ => 0)

  datatype KemKeyPair = KemKeyPair(dk: Dk, ek: Ek)

  type Slot = (Word, u32)

  /** A peer's offer is a plain byte vector: nothing fixes its length. */
  datatype State = State(
    dhsPriv: Word, dhsPub: Word, dhrPub: Option<Word>, rk: Word, cks: Option<Word>, ckr: Option<Word>,
    ns: u32, nr: u32, pn: u32, skipped: map<Slot, Word>, turns: u32, remixes: u32,
    pendingOffer: Option<KemKeyPair>, peerOffer: Option<Bytes>)

  function Bit(present: bool, mask: nat): nat {
    if present then mask else 0
  }

  predicate Has(flags: byte, mask: nat)
    requires mask > 0
  {
    flags / mask % 2 == 1
  }

  function Flags(st: State): byte {
    Bit(st.dhrPub.Some?, 1) + Bit(st.cks.Some?, 2) + Bit(st.ckr.Some?, 4) + Bit(st.pendingOffer.Some?, 8) + Bit(st.peerOffer.Some?, 16)
  }

  lemma FlagsAreRead(st: State)
    ensures Has(Flags(st), 1) <==> st.dhrPub.Some?
    ensures Has(Flags(st), 2) <==> st.cks.Some?
    ensures Has(Flags(st), 4) <==> st.ckr.Some?
    ensures Has(Flags(st), 8) <==> st.pendingOffer.Some?
    ensures Has(Flags(st), 16) <==> st.peerOffer.Some?
  {
  }

  function OrEmpty(w: Option<Bytes>): Bytes {
    if w.Some? then w.value else []
  }

  function PairBytes(kp: Option<KemKeyPair>): Bytes {
    if kp.Some? then kp.value.dk + kp.value.ek else []
  }

  // ---- Writing --------------------------------------------------------------------

  function Head(st: State): (r: seq<Bytes>)
    ensures |r| == 12
  {
    [st.dhsPriv, st.dhsPub, OrEmpty(st.dhrPub), st.rk, OrEmpty(st.cks), OrEmpty(st.ckr),
     Le(st.ns, 4), Le(st.nr, 4), Le(st.pn, 4), Le(st.turns, 4), Le(st.remixes, 4), Le(|st.skipped|, 4)]
  }

  function EntryBytes(slot: Slot, mk: Word): Bytes {
    slot.0 + Le(slot.1, 4) + mk
  }

  function Entries(skipped: map<Slot, Word>, order: seq<Slot>): (r: seq<Bytes>)
    requires forall slot | slot in order :: slot in skipped
    ensures |r| == |order| && forall i | 0 <= i < |r| :: r[i] == EntryBytes(order[i], skipped[order[i]])
  {
    seq(|order|, i requires 0 <= i < |order| => EntryBytes(order[i], skipped[order[i]]))
  }

  function Tail(st: State, ct: Option<Bytes>): seq<Bytes> {
    [PairBytes(st.pendingOffer), OrEmpty(st.peerOffer), Le(|OrEmpty(ct)|, 4)]
  }

  /** `order` is how the hash map happens to be walked: every key once. */
  ghost predicate Walks(order: seq<Slot>, skipped: map<Slot, Word>) {
    && (forall slot :: slot in order <==> slot in skipped)
    && (forall i, j | 0 <= i < j < |order| :: order[i] != order[j])
  }

  ghost function Serialized(st: State, ct: Option<Bytes>, order: seq<Slot>): Bytes
    requires Walks(order, st.skipped)
  {
    [Flags(st)] + (Join(Head(st)) + (Join(Entries(st.skipped, order)) + (Join(Tail(st, ct)) + OrEmpty(ct))))
  }

  method Serialize(st: State, ct: Option<Bytes>, order: seq<Slot>) returns (out: Bytes)
    requires Walks(order, st.skipped)
    ensures out == Serialized(st, ct, order)
  {
    var head := WriteFields(Head(st));
    var entries: Bytes := [];
    for i := 0 to |order|
      invariant entries == Join(Entries(st.skipped, order)[..i])
    {
      var all := Entries(st.skipped, order);
      JoinSnoc(all[..i], all[i]);
      assert all[..i + 1] == all[..i] + [all[i]];
      entries := entries + (order[i].0 + Le(order[i].1, 4) + st.skipped[order[i]]);
    }
    assert Entries(st.skipped, order)[..|order|] == Entries(st.skipped, order);
    var tail := WriteFields(Tail(st, ct));
    out := [Flags(st)] + (head + (entries + (tail + OrEmpty(ct))));
  }

  // ---- Reading --------------------------------------------------------------------

  function If(present: bool, n: nat): nat {
    if present then n else 0
  }

  function HeadSizes(flags: byte): (r: seq<nat>)
    ensures |r| == 12 && r[0] == 32 && r[1] == 32 && r[2] == If(Has(flags, 1), 32) && r[3] == 32
    ensures r[4] == If(Has(flags, 2), 32) && r[5] == If(Has(flags, 4), 32)
    ensures forall i | 6 <= i < 12 :: r[i] == 4
  {
    [32, 32, If(Has(flags, 1), 32), 32, If(Has(flags, 2), 32), If(Has(flags, 4), 32), 4, 4, 4, 4, 4, 4]
  }

  function EntrySizes(count: nat): (r: seq<nat>)
    ensures |r| == count && forall i | 0 <= i < count :: r[i] == 68
  {
    seq(count, i => 68)
  }

  function TailSizes(flags: byte): (r: seq<nat>)
    ensures |r| == 3 && r[0] == If(Has(flags, 8), PAIR_LEN) && r[1] == If(Has(flags, 16), EK_LEN) && r[2] == 4
  {
    [If(Has(flags, 8), PAIR_LEN), If(Has(flags, 16), EK_LEN), 4]
  }

  function SlotOf(e: Bytes): Slot
    requires |e| == 68
  {
    FromLeBound(e[32..36]);
    Widths();
    (e[..32], FromLe(e[32..36]))
  }

  /** The cache filled entry by entry; a later entry for the same slot wins. */
  function Filled(entries: seq<Bytes>): map<Slot, Word>
    requires forall e | e in entries :: |e| == 68
  {
    if entries == [] then map[] else
    var e := entries[|entries| - 1];
    Filled(entries[..|entries| - 1])[SlotOf(e) := e[36..]]
  }

  function Num(b: Bytes): (r: u32)
    requires |b| == 4
    ensures r == FromLe(b)
  {
    FromLeBound(b);
    Widths();
    FromLe(b)
  }

  function WordIf(present: bool, b: Bytes): Option<Word>
    requires |b| == If(present, 32)
  {
    if present then Some(b) else None
  }

  function PairIf(present: bool, b: Bytes): Option<KemKeyPair>
    requires |b| == If(present, PAIR_LEN)
  {
    if present then Some(KemKeyPair(b[..DK_LEN], b[DK_LEN..])) else None
  }

  /** The state out of its fields. */
  function Assemble(flags: byte, head: seq<Bytes>, entries: seq<Bytes>, tail: seq<Bytes>): State
    requires HeadFits(flags, head) && forall e | e in entries :: |e| == 68
    requires |tail| == 3 && forall i | 0 <= i < 3 :: |tail[i]| == TailSizes(flags)[i]
  {
    assert |tail[0]| == TailSizes(flags)[0];
    State(head[0], head[1], WordIf(Has(flags, 1), head[2]), head[3], WordIf(Has(flags, 2), head[4]), WordIf(Has(flags, 4), head[5]),
          Num(head[6]), Num(head[7]), Num(head[8]), Filled(entries), Num(head[9]), Num(head[10]),
          PairIf(Has(flags, 8), tail[0]),
          if Has(flags, 16) then Some(tail[1]) else None)
  }

  /** The parse and the bytes it leaves over, which the importer ignores. */
  function Parsed(b: Bytes): Result<(State, Option<Bytes>, Bytes), Truncated> {
    if b == [] then Err(Truncated) else
    var flags := b[0];
    var (head, rest) :- Split(b[1..], HeadSizes(flags));
    ParsedEntries(flags, head, rest)
  }

  predicate HeadFits(flags: byte, head: seq<Bytes>) {
    |head| == 12 && forall i | 0 <= i < 12 :: |head[i]| == HeadSizes(flags)[i]
  }

  function ParsedEntries(flags: byte, head: seq<Bytes>, b: Bytes): Result<(State, Option<Bytes>, Bytes), Truncated>
    requires HeadFits(flags, head)
  {
    var (entries, rest) :- Split(b, EntrySizes(FromLe(head[11])));
    ParsedTail(flags, head, entries, rest)
  }

  function ParsedTail(flags: byte, head: seq<Bytes>, entries: seq<Bytes>, b: Bytes): Result<(State, Option<Bytes>, Bytes), Truncated>
    requires HeadFits(flags, head) && forall e | e in entries :: |e| == 68
  {
    var (tail, rest) :- Split(b, TailSizes(flags));
    var n := FromLe(tail[2]);
    var (ct, left) :- Split(rest, [n]);
    Ok((Assemble(flags, head, entries, tail), if n > 0 then Some(ct[0]) else None, left))
  }

  function Deserialized(b: Bytes): Result<(State, Option<Bytes>), Truncated> {
    WithoutRest(Parsed(b))
  }

  function WithoutRest(r: Result<(State, Option<Bytes>, Bytes), Truncated>): Result<(State, Option<Bytes>), Truncated> {
    var (st, ct, _) :- r;
    Ok((st, ct))
  }

  method Deserialize(bytes: Bytes) returns (r: Result<(State, Option<Bytes>), Truncated>)
    ensures r == Deserialized(bytes)
  {
    if |bytes| < 1 { return Err(Truncated); }
    var flags := bytes[0];
    var head, pos := ReadFields(bytes, 1, HeadSizes(flags));
    if head.Err? { return Err(head.error); }
    r := DeserializeEntries(bytes, pos, flags, head.value);
  }

  method DeserializeEntries(bytes: Bytes, start: nat, flags: byte, head: seq<Bytes>)
    returns (r: Result<(State, Option<Bytes>), Truncated>)
    requires start <= |bytes| && HeadFits(flags, head)
    ensures r == WithoutRest(ParsedEntries(flags, head, bytes[start..]))
  {
    var entries, pos := ReadFields(bytes, start, EntrySizes(FromLe(head[11])));
    if entries.Err? { return Err(entries.error); }
    r := DeserializeTail(bytes, pos, flags, head, entries.value);
  }

  method DeserializeTail(bytes: Bytes, start: nat, flags: byte, head: seq<Bytes>, entries: seq<Bytes>)
    returns (r: Result<(State, Option<Bytes>), Truncated>)
    requires start <= |bytes| && HeadFits(flags, head) && forall e | e in entries :: |e| == 68
    ensures r == WithoutRest(ParsedTail(flags, head, entries, bytes[start..]))
  {
    var skipped := Fill(entries);
    var tail, pos := ReadFields(bytes, start, TailSizes(flags));
    if tail.Err? { return Err(tail.error); }
    var n := FromLe(tail.value[2]);
    var ct, _ := ReadFields(bytes, pos, [n]);
    if ct.Err? { return Err(ct.error); }
    var st := Assemble(flags, head, [], tail.value);
    return Ok((st.(skipped := skipped), if n > 0 then Some(ct.value[0]) else None));
  }

  method Fill(entries: seq<Bytes>) returns (skipped: map<Slot, Word>)
    requires forall e | e in entries :: |e| == 68
    ensures skipped == Filled(entries)
  {
    skipped := map[];
    for i := 0 to |entries|
      invariant skipped == Filled(entries[..i])
    {
      assert entries[..i + 1][..i] == entries[..i];
      skipped := skipped[SlotOf(entries[i]) := entries[i][36..]];
    }
    assert entries[..|entries|] == entries;
  }

  // ---- There and back -------------------------------------------------------------

  /** The part of the cache that the first slots of the walk cover. */
  function Covered(skipped: map<Slot, Word>, order: seq<Slot>): map<Slot, Word>
    requires forall slot | slot in order :: slot in skipped
  {
    map slot | slot in order :: skipped[slot]
  }

  lemma CoveredGrows(skipped: map<Slot, Word>, order: seq<Slot>, slot: Slot)
    requires slot in skipped && forall s | s in order :: s in skipped
    ensures Covered(skipped, order + [slot]) == Covered(skipped, order)[slot := skipped[slot]]
  {
  }

  lemma {:induction false} FilledBack(skipped: map<Slot, Word>, order: seq<Slot>)
    requires forall slot | slot in order :: slot in skipped
    ensures (forall e | e in Entries(skipped, order) :: |e| == 68)
         && Filled(Entries(skipped, order)) == Covered(skipped, order)
    decreases |order|
  {
    if order != [] {
      var k := |order| - 1;
      var slot := order[k];
      assert order == order[..k] + [slot];
      FilledBack(skipped, order[..k]);
      CoveredGrows(skipped, order[..k], slot);
      EntryBack(slot, skipped[slot]);
      hide EntryBytes, SlotOf;
      assert Entries(skipped, order) == Entries(skipped, order[..k]) + [EntryBytes(slot, skipped[slot])];
    }
  }

  lemma EntryBack(slot: Slot, mk: Word)
    ensures var e := EntryBytes(slot, mk); |e| == 68 && SlotOf(e) == slot && e[36..] == mk
  {
    LeRoundTrip(slot.1, 4);
    Widths();
    var e := EntryBytes(slot, mk);
    assert e[..32] == slot.0 && e[32..36] == Le(slot.1, 4) && e[36..] == mk;
  }

  lemma NumBack(n: u32)
    ensures Num(Le(n, 4)) == n
  {
    LeRoundTrip(n, 4);
    Widths();
  }

  lemma PairBack(kp: Option<KemKeyPair>)
    ensures |PairBytes(kp)| == If(kp.Some?, PAIR_LEN) && PairIf(kp.Some?, PairBytes(kp)) == kp
  {
    if kp.Some? {
      var b := PairBytes(kp);
      assert b[..DK_LEN] == kp.value.dk && b[DK_LEN..] == kp.value.ek;
    }
  }

  lemma FieldsFit(st: State, ct: Option<Bytes>)
    requires st.peerOffer.Some? ==> |st.peerOffer.value| == EK_LEN
    ensures HeadFits(Flags(st), Head(st))
    ensures |Tail(st, ct)| == 3 && forall i | 0 <= i < 3 :: |Tail(st, ct)[i]| == TailSizes(Flags(st))[i]
  {
    FlagsAreRead(st);
    var head, sizes := Head(st), HeadSizes(Flags(st));
    assert |head[0]| == sizes[0] && |head[1]| == sizes[1] && |head[2]| == sizes[2] && |head[3]| == sizes[3];
    assert |head[4]| == sizes[4] && |head[5]| == sizes[5];
    assert forall i | 6 <= i < 12 :: |head[i]| == 4;
  }

  lemma {:induction false} FilledSize(entries: seq<Bytes>)
    requires forall e | e in entries :: |e| == 68
    ensures |Filled(entries)| <= |entries|
  {
    if entries != [] { FilledSize(entries[..|entries| - 1]); }
  }

  lemma WalkLength(order: seq<Slot>, skipped: map<Slot, Word>)
    requires Walks(order, skipped)
    ensures |order| == |skipped|
  {
    DistinctCount(order);
    assert Elements(order) == skipped.Keys;
  }

  /** What an export can carry: the fixed length the importer expects of the peer's offer,
      and counts that fit their four bytes. */
  predicate Exportable(st: State, ct: Option<Bytes>) {
    && (st.peerOffer.Some? ==> |st.peerOffer.value| == EK_LEN)
    && |st.skipped| < 0x1_0000_0000 && |OrEmpty(ct)| < 0x1_0000_0000
  }

  lemma AssembledBack(st: State, ct: Option<Bytes>, entries: seq<Bytes>)
    requires HeadFits(Flags(st), Head(st)) && forall e | e in entries :: |e| == 68
    requires |Tail(st, ct)| == 3 && forall i | 0 <= i < 3 :: |Tail(st, ct)[i]| == TailSizes(Flags(st))[i]
    requires Filled(entries) == st.skipped
    ensures Assemble(Flags(st), Head(st), entries, Tail(st, ct)) == st
  {
    FlagsAreRead(st);
    NumBack(st.ns);
    NumBack(st.nr);
    NumBack(st.pn);
    NumBack(st.turns);
    NumBack(st.remixes);
    PairBack(st.pendingOffer);
  }

  lemma EntriesBack(skipped: map<Slot, Word>, order: seq<Slot>)
    requires Walks(order, skipped)
    ensures (forall e | e in Entries(skipped, order) :: |e| == 68) && Filled(Entries(skipped, order)) == skipped
  {
    FilledBack(skipped, order);
    assert Covered(skipped, order) == skipped;
  }

  lemma TailParses(flags: byte, head: seq<Bytes>, entries: seq<Bytes>, tail: seq<Bytes>, ct: Bytes)
    requires HeadFits(flags, head) && forall e | e in entries :: |e| == 68
    requires |tail| == 3 && forall i | 0 <= i < 3 :: |tail[i]| == TailSizes(flags)[i]
    requires FromLe(tail[2]) == |ct|
    ensures ParsedTail(flags, head, entries, Join(tail) + ct)
         == Ok((Assemble(flags, head, entries, tail), if ct == [] then None else Some(ct), []))
  {
    SplitJoin(tail, TailSizes(flags), ct);
    assert Join([ct]) + [] == ct by { assert [ct][1..] == []; }
    SplitJoin([ct], [|ct|], []);
  }

  lemma EntriesParse(flags: byte, head: seq<Bytes>, entries: seq<Bytes>, rest: Bytes)
    requires HeadFits(flags, head) && forall e | e in entries :: |e| == 68
    requires FromLe(head[11]) == |entries|
    ensures ParsedEntries(flags, head, Join(entries) + rest) == ParsedTail(flags, head, entries, rest)
  {
    SplitJoin(entries, EntrySizes(|entries|), rest);
  }

  lemma HeadParses(flags: byte, head: seq<Bytes>, rest: Bytes)
    requires HeadFits(flags, head)
    ensures Parsed([flags] + (Join(head) + rest)) == ParsedEntries(flags, head, rest)
  {
    SplitJoin(head, HeadSizes(flags), rest);
    assert ([flags] + (Join(head) + rest))[1..] == Join(head) + rest;
  }

  /** The whole export is consumed and gives the state back, in whatever order the cache was walked. */
  lemma ParsesBack(st: State, ct: Option<Bytes>, order: seq<Slot>)
    requires Walks(order, st.skipped) && Exportable(st, ct)
    ensures Parsed(Serialized(st, ct, order)) == Ok((st, if ct == Some([]) then None else ct, []))
  {
    var head, entries, tail := Head(st), Entries(st.skipped, order), Tail(st, ct);
    EntriesBack(st.skipped, order);
    FieldsFit(st, ct);
    AssembledBack(st, ct, entries);
    WalkLength(order, st.skipped);
    NumBack(|st.skipped|);
    NumBack(|OrEmpty(ct)|);
    TailParses(Flags(st), head, entries, tail, OrEmpty(ct));
    EntriesParse(Flags(st), head, entries, Join(tail) + OrEmpty(ct));
    HeadParses(Flags(st), head, Join(entries) + (Join(tail) + OrEmpty(ct)));
  }

  /** Importing an export gives back the state and the handshake ciphertext, the empty one
      as none, exactly when the export can carry them. */
  lemma RoundTrip(st: State, ct: Option<Bytes>, order: seq<Slot>)
    requires Walks(order, st.skipped)
    ensures Deserialized(Serialized(st, ct, order)) == Ok((st, if ct == Some([]) then None else ct)) <==> Exportable(st, ct)
  {
    if Exportable(st, ct) {
      ParsesBack(st, ct, order);
    } else {
      ParsedFits(Serialized(st, ct, order));
    }
  }

  /** Whatever is imported is of the size an export can carry. */
  lemma ParsedFits(b: Bytes)
    ensures Parsed(b).Ok? ==> Exportable(Parsed(b).value.0, Parsed(b).value.1)
  {
    if Parsed(b).Ok? {
      var flags := b[0];
      var (head, afterHead) := Split(b[1..], HeadSizes(flags)).value;
      var (entries, afterEntries) := Split(afterHead, EntrySizes(FromLe(head[11]))).value;
      var (tail, _) := Split(afterEntries, TailSizes(flags)).value;
      FilledSize(entries);
      assert |entries| == Num(head[11]);
      assert FromLe(tail[2]) == Num(tail[2]);
    }
  }

  /** A parse of a prefix is the parse of every extension, with the extra bytes left over. */
  lemma ParsedExtends(b: Bytes, x: Bytes)
    requires Parsed(b).Ok?
    ensures Parsed(b + x).Ok? && Parsed(b + x).value == (Parsed(b).value.0, Parsed(b).value.1, Parsed(b).value.2 + x)
  {
    hide ParsedEntries, ParsedTail, Split, HeadSizes;
    var flags := b[0];
    assert (b + x)[1..] == b[1..] + x && (b + x)[0] == flags;
    SplitExtends(b[1..], HeadSizes(flags), x);
    var (head, afterHead) := Split(b[1..], HeadSizes(flags)).value;
    EntriesExtend(flags, head, afterHead, x);
  }

  lemma EntriesExtend(flags: byte, head: seq<Bytes>, b: Bytes, x: Bytes)
    requires HeadFits(flags, head) && ParsedEntries(flags, head, b).Ok?
    ensures var r := ParsedEntries(flags, head, b).value;
            ParsedEntries(flags, head, b + x) == Ok((r.0, r.1, r.2 + x))
  {
    SplitExtends(b, EntrySizes(FromLe(head[11])), x);
    var (entries, rest) := Split(b, EntrySizes(FromLe(head[11]))).value;
    TailExtends(flags, head, entries, rest, x);
    hide ParsedTail, Split, FromLe;
  }

  lemma TailExtends(flags: byte, head: seq<Bytes>, entries: seq<Bytes>, b: Bytes, x: Bytes)
    requires HeadFits(flags, head) && forall e | e in entries :: |e| == 68
    requires ParsedTail(flags, head, entries, b).Ok?
    ensures var r := ParsedTail(flags, head, entries, b).value;
            ParsedTail(flags, head, entries, b + x) == Ok((r.0, r.1, r.2 + x))
  {
    SplitExtends(b, TailSizes(flags), x);
    var (tail, afterTail) := Split(b, TailSizes(flags)).value;
    SplitExtends(afterTail, [FromLe(tail[2])], x);
  }

  /** An export cut short anywhere is refused. */
  lemma PrefixRejected(st: State, ct: Option<Bytes>, order: seq<Slot>, k: nat)
    requires Walks(order, st.skipped) && Exportable(st, ct)
    requires k < |Serialized(st, ct, order)|
    ensures Deserialized(Serialized(st, ct, order)[..k]) == Err(Truncated)
  {
    hide Parsed, Serialized;
    var b := Serialized(st, ct, order);
    if Parsed(b[..k]).Ok? {
      ParsedExtends(b[..k], b[k..]);
      assert b[..k] + b[k..] == b;
      ParsesBack(st, ct, order);
    }
    assert Parsed(b[..k]).error == Truncated;
  }
}
