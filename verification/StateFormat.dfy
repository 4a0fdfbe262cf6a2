/** Which byte strings are exports of a ratchet state, and what each byte of one means. */
module StateFormat {
  import opened Common
  import opened ByteCodec
  import opened StateExport

  /** The fields an export is laid out in; `rest` is never looked at. */
  datatype Fields = Fields(flags: byte, head: seq<Bytes>, entries: seq<Bytes>, tail: seq<Bytes>, ct: Bytes, rest: Bytes)

  /** Five flag bits say which optional fields are there; the other three are free. */
  predicate Flag(flags: byte, bit: nat)
    requires bit <= 4
  {
    (match bit case 0 => flags case 1 => flags / 2 case 2 => flags / 4 case 3 => flags / 8 case _ => flags / 16) % 2 == 1
  }

  predicate HeadSized(f: Fields) {
    && |f.head| == 12 && |f.head[0]| == 32 && |f.head[1]| == 32
    && |f.head[2]| == (if Flag(f.flags, 0) then 32 else 0)
    && |f.head[3]| == 32
    && |f.head[4]| == (if Flag(f.flags, 1) then 32 else 0)
    && |f.head[5]| == (if Flag(f.flags, 2) then 32 else 0)
    && forall i | 6 <= i < 12 :: |f.head[i]| == 4
  }

  predicate TailSized(f: Fields) {
    && |f.tail| == 3
    && |f.tail[0]| == (if Flag(f.flags, 3) then 64 + 1184 else 0)
    && |f.tail[1]| == (if Flag(f.flags, 4) then 1184 else 0)
    && |f.tail[2]| == 4
  }

  predicate Sized(f: Fields) {
    && HeadSized(f) && TailSized(f)
    && FromLe(f.head[11]) == |f.entries| && (forall e | e in f.entries :: |e| == 32 + 4 + 32)
    && FromLe(f.tail[2]) == |f.ct|
  }

  predicate Lays(b: Bytes, f: Fields) {
    Sized(f) && b == [f.flags] + (Join(f.head) + (Join(f.entries) + (Join(f.tail) + (f.ct + f.rest))))
  }

  /** Entry `i` is for this slot. */
  predicate EntryFor(entries: seq<Bytes>, i: nat, slot: Slot)
    requires forall e | e in entries :: |e| == 68
  {
    i < |entries| && entries[i][..32] == slot.0 && FromLe(entries[i][32..36]) == slot.1
  }

  /** The cache an export spells: the last entry for a slot counts. */
  ghost predicate CacheMeans(entries: seq<Bytes>, skipped: map<Slot, Word>)
    requires forall e | e in entries :: |e| == 68
  {
    && (forall slot :: slot in skipped <==> exists i: nat :: EntryFor(entries, i, slot))
    && forall i: nat, slot | EntryFor(entries, i, slot) && (forall j: nat | i < j :: !EntryFor(entries, j, slot)) ::
         slot in skipped && skipped[slot] == entries[i][36..]
  }

  ghost predicate Means(f: Fields, st: State, ct: Option<Bytes>)
    requires Sized(f)
  {
    && st.dhsPriv == f.head[0] && st.dhsPub == f.head[1] && st.rk == f.head[3]
    && st.dhrPub == (if Flag(f.flags, 0) then Some(f.head[2]) else None)
    && st.cks == (if Flag(f.flags, 1) then Some(f.head[4]) else None)
    && st.ckr == (if Flag(f.flags, 2) then Some(f.head[5]) else None)
    && st.ns == FromLe(f.head[6]) && st.nr == FromLe(f.head[7]) && st.pn == FromLe(f.head[8])
    && st.turns == FromLe(f.head[9]) && st.remixes == FromLe(f.head[10])
    && CacheMeans(f.entries, st.skipped)
    && st.pendingOffer == (if Flag(f.flags, 3) then Some(KemKeyPair(f.tail[0][..64], f.tail[0][64..])) else None)
    && st.peerOffer == (if Flag(f.flags, 4) then Some(f.tail[1]) else None)
    && ct == if f.ct == [] then None else Some(f.ct)
  }

  // ---- What is imported is what is laid out ---------------------------------------

  lemma FlagIsHas(flags: byte)
    ensures Flag(flags, 0) <==> Has(flags, 1)
    ensures Flag(flags, 1) <==> Has(flags, 2)
    ensures Flag(flags, 2) <==> Has(flags, 4)
    ensures Flag(flags, 3) <==> Has(flags, 8)
    ensures Flag(flags, 4) <==> Has(flags, 16)
  {
  }

  lemma SizedFits(f: Fields)
    requires Sized(f)
    ensures HeadFits(f.flags, f.head) && forall i | 0 <= i < 3 :: |f.tail[i]| == TailSizes(f.flags)[i]
  {
    FlagIsHas(f.flags);
    var sizes := HeadSizes(f.flags);
    assert forall i | 0 <= i < 6 :: |f.head[i]| == sizes[i] by {
      assert |f.head[0]| == sizes[0] && |f.head[1]| == sizes[1] && |f.head[2]| == sizes[2] && |f.head[3]| == sizes[3];
      assert |f.head[4]| == sizes[4] && |f.head[5]| == sizes[5];
    }
  }

  function CtOf(f: Fields): Option<Bytes> {
    if f.ct == [] then None else Some(f.ct)
  }

  lemma EntryIs(entries: seq<Bytes>, i: nat, slot: Slot)
    requires forall e | e in entries :: |e| == 68
    ensures EntryFor(entries, i, slot) <==> i < |entries| && SlotOf(entries[i]) == slot
  {
  }

  lemma {:induction false} FilledMeans(entries: seq<Bytes>)
    requires forall e | e in entries :: |e| == 68
    ensures CacheMeans(entries, Filled(entries))
    decreases |entries|
  {
    if entries != [] {
      var k := |entries| - 1;
      FilledMeans(entries[..k]);
      OneMore(entries, Filled(entries[..k]));
    } else {
      assert forall i: nat, slot :: !EntryFor(entries, i, slot);
    }
  }

  lemma OneMore(entries: seq<Bytes>, was: map<Slot, Word>)
    requires entries != [] && forall e | e in entries :: |e| == 68
    requires CacheMeans(entries[..|entries| - 1], was)
    ensures CacheMeans(entries, was[SlotOf(entries[|entries| - 1]) := entries[|entries| - 1][36..]])
  {
    var k := |entries| - 1;
    var before, last := entries[..k], SlotOf(entries[k]);
    var now := was[last := entries[k][36..]];
    forall i: nat, slot ensures EntryFor(entries, i, slot) <==> (EntryFor(before, i, slot) || (i == k && slot == last)) {
      EntryIs(entries, i, slot);
      EntryIs(before, i, slot);
    }
    hide EntryFor, SlotOf;
    forall slot ensures slot in now <==> exists i: nat :: EntryFor(entries, i, slot) {
      if slot in was {
        var i: nat :| EntryFor(before, i, slot);
        assert EntryFor(entries, i, slot);
      }
      if slot == last { assert EntryFor(entries, k, slot); }
      if exists i: nat :: EntryFor(entries, i, slot) {
        var i: nat :| EntryFor(entries, i, slot);
        assert EntryFor(before, i, slot) || slot == last;
      }
    }
    forall i: nat, slot | EntryFor(entries, i, slot) && (forall j: nat | i < j :: !EntryFor(entries, j, slot))
      ensures slot in now && now[slot] == entries[i][36..]
    {
      if slot != last { LastBefore(entries, before, i, slot, was, last); }
      else { IsLast(entries, i, k, slot); }
    }
  }

  lemma IsLast(entries: seq<Bytes>, i: nat, k: nat, slot: Slot)
    requires (forall e | e in entries :: |e| == 68) && EntryFor(entries, i, slot) && EntryFor(entries, k, slot) && k == |entries| - 1
    requires forall j: nat | i < j :: !EntryFor(entries, j, slot)
    ensures i == k
  {
  }

  lemma LastBefore(entries: seq<Bytes>, before: seq<Bytes>, i: nat, slot: Slot, was: map<Slot, Word>, last: Slot)
    requires entries != [] && before == entries[..|entries| - 1] && forall e | e in entries :: |e| == 68
    requires forall j: nat, s :: EntryFor(entries, j, s) <==> (EntryFor(before, j, s) || (j == |before| && s == last))
    requires EntryFor(entries, i, slot) && slot != last && forall j: nat | i < j :: !EntryFor(entries, j, slot)
    requires CacheMeans(before, was)
    ensures slot in was && was[slot] == entries[i][36..]
  {
    hide EntryFor;
    EntryIs(before, i, slot);
    assert EntryFor(before, i, slot) && before[i] == entries[i];
  }

  lemma AssembledMeans(f: Fields)
    requires Sized(f)
    ensures HeadFits(f.flags, f.head) && forall i | 0 <= i < 3 :: |f.tail[i]| == TailSizes(f.flags)[i]
    ensures Means(f, Assemble(f.flags, f.head, f.entries, f.tail), CtOf(f))
  {
    SizedFits(f);
    FlagIsHas(f.flags);
    FilledMeans(f.entries);
    hide Filled, CacheMeans, FromLe, Flag, Has;
  }

  lemma TailIsParsed(f: Fields)
    requires Sized(f) && HeadFits(f.flags, f.head) && forall i | 0 <= i < 3 :: |f.tail[i]| == TailSizes(f.flags)[i]
    ensures ParsedTail(f.flags, f.head, f.entries, Join(f.tail) + (f.ct + f.rest))
         == Ok((Assemble(f.flags, f.head, f.entries, f.tail), CtOf(f), f.rest))
  {
    SplitJoin(f.tail, TailSizes(f.flags), f.ct + f.rest);
    JoinOne(f.ct);
    SplitJoin([f.ct], [|f.ct|], f.rest);
    hide Split, Join, Assemble, FromLe, HeadFits, HeadSized;
  }

  lemma LaidIsParsed(b: Bytes, f: Fields)
    requires Lays(b, f)
    ensures HeadFits(f.flags, f.head) && forall i | 0 <= i < 3 :: |f.tail[i]| == TailSizes(f.flags)[i]
    ensures Parsed(b) == Ok((Assemble(f.flags, f.head, f.entries, f.tail), CtOf(f), f.rest))
  {
    hide Split, Join, Parsed, ParsedEntries, ParsedTail, Assemble, FromLe, HeadSizes, HeadSized;
    SizedFits(f);
    HeadParses(f.flags, f.head, Join(f.entries) + (Join(f.tail) + (f.ct + f.rest)));
    EntriesParse(f.flags, f.head, f.entries, Join(f.tail) + (f.ct + f.rest));
    TailIsParsed(f);
  }

  lemma ParsedIsLaid(b: Bytes)
    requires Parsed(b).Ok?
    ensures exists f :: Lays(b, f)
  {
    var flags := b[0];
    var (head, b1) := Split(b[1..], HeadSizes(flags)).value;
    var (entries, b2) := Split(b1, EntrySizes(FromLe(head[11]))).value;
    var (tail, b3) := Split(b2, TailSizes(flags)).value;
    var (ct, rest) := Split(b3, [FromLe(tail[2])]).value;
    JoinSplit(b[1..], HeadSizes(flags));
    JoinSplit(b1, EntrySizes(FromLe(head[11])));
    JoinSplit(b2, TailSizes(flags));
    JoinSplit(b3, [FromLe(tail[2])]);
    var f := Fields(flags, head, entries, tail, ct[0], rest);
    assert ct == [ct[0]] && |ct[0]| == [FromLe(tail[2])][0];
    JoinOne(ct[0]);
    FlagIsHas(flags);
    FieldSizes(flags, head, tail);
    hide *;
    Nested(b, flags, Join(head), b1, Join(entries), b2, Join(tail), b3, ct[0], rest);
    assert Sized(f) by { SizedFrom(f); }
    LaysFrom(b, f);
  }

  lemma Nested(b: Bytes, flags: byte, h: Bytes, b1: Bytes, e: Bytes, b2: Bytes, t: Bytes, b3: Bytes, c: Bytes, rest: Bytes)
    requires b != [] && b[0] == flags && b[1..] == h + b1 && b1 == e + b2 && b2 == t + b3 && b3 == c + rest
    ensures b == [flags] + (h + (e + (t + (c + rest))))
  {
  }

  lemma SizedFrom(f: Fields)
    requires HeadSized(f) && TailSized(f)
    requires FromLe(f.head[11]) == |f.entries| && (forall e | e in f.entries :: |e| == 68) && FromLe(f.tail[2]) == |f.ct|
    ensures Sized(f)
  {
  }

  lemma LaysFrom(b: Bytes, f: Fields)
    requires Sized(f) && b == [f.flags] + (Join(f.head) + (Join(f.entries) + (Join(f.tail) + (f.ct + f.rest))))
    ensures Lays(b, f)
  {
  }

  lemma FieldSizes(flags: byte, head: seq<Bytes>, tail: seq<Bytes>)
    requires HeadFits(flags, head) && |tail| == 3 && forall i | 0 <= i < 3 :: |tail[i]| == TailSizes(flags)[i]
    ensures forall entries, ct, rest :: var f := Fields(flags, head, entries, tail, ct, rest); HeadSized(f) && TailSized(f)
  {
    FlagIsHas(flags);
    var h, t := HeadSizes(flags), TailSizes(flags);
    assert |head[0]| == h[0] && |head[1]| == h[1] && |head[2]| == h[2] && |head[3]| == h[3] && |head[4]| == h[4] && |head[5]| == h[5];
    assert |tail[0]| == t[0] && |tail[1]| == t[1] && |tail[2]| == t[2];
  }

  /** The importer accepts exactly the byte strings that are laid out as an export, spare
      flag bits, repeated slots and bytes left over included, and takes every field from its
      place. */
  lemma ImportExactly(b: Bytes)
    ensures Deserialized(b).Ok? <==> exists f :: Lays(b, f)
    ensures forall f | Lays(b, f) :: Deserialized(b).Ok? && Means(f, Deserialized(b).value.0, Deserialized(b).value.1)
  {
    hide Sized, Join, Parsed, Assemble, Means;
    if Parsed(b).Ok? { ParsedIsLaid(b); }
    forall f | Lays(b, f) ensures Deserialized(b).Ok? && Means(f, Deserialized(b).value.0, Deserialized(b).value.1) {
      LaidIsParsed(b, f);
      AssembledMeans(f);
    }
  }
}
