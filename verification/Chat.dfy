/** A two-party chat: each side applies its own operations at once and the other side's in
    order, and once everything is delivered the two message lists agree. */
module Chat {
  import opened Common

  datatype Who = Me | Them

  type Emoji = string

  type Reactions = map<Emoji, seq<Who>>

  datatype ChatMessage = ChatMessage(id: nat, sender: Who, text: string, edited: bool, deleted: bool, reactions: Reactions)

  datatype Payload =
    | Text(id: nat, text: string)
    | Edit(id: nat, text: string)
    | Delete(id: nat)
    | Reaction(id: nat, emoji: Option<Emoji>)

  // ---- The message list -----------------------------------------------------------

  function Without(s: seq<Who>, who: Who): (r: seq<Who>)
    ensures forall w :: w in r <==> w in s && w != who
  {
    if s == [] then [] else (if s[0] == who then [] else [s[0]]) + Without(s[1..], who)
  }

  lemma {:induction false} WithoutNoRepeats(s: seq<Who>, who: Who)
    requires NoRepeats(s)
    ensures NoRepeats(Without(s, who))
  {
    if s != [] {
      assert forall i | 0 <= i < |s| - 1 :: s[1..][i] == s[i + 1];
      WithoutNoRepeats(s[1..], who);
      assert forall w | w in Without(s[1..], who) :: w != s[0];
    }
  }

  predicate NoRepeats(s: seq<Who>) {
    forall i, j | 0 <= i < j < |s| :: s[i] != s[j]
  }

  function Cleared(r: Reactions, who: Who): Reactions {
    map e | e in r && Without(r[e], who) != [] :: Without(r[e], who)
  }

  function React(r: Reactions, who: Who, emoji: Option<Emoji>): Reactions {
    var cleared := Cleared(r, who);
    match emoji
    case None => cleared
    case Some(e) => cleared[e := (if e in cleared then cleared[e] else []) + [who]]
  }

  /** Drops the earlier reaction of `who` from a fresh copy, emoji by emoji, then adds the new one. */
  method ReactInPlace(reactions: Reactions, who: Who, emoji: Option<Emoji>) returns (r: Reactions)
    ensures r == React(reactions, who, emoji)
  {
    r := reactions;
    var keys := reactions.Keys;
    while keys != {}
      invariant keys <= reactions.Keys && r.Keys <= reactions.Keys
      invariant forall e | e in keys :: e in r && r[e] == reactions[e]
      invariant forall e | e in reactions.Keys - keys :: e in r <==> e in Cleared(reactions, who)
      invariant forall e | e in r && e !in keys :: e in Cleared(reactions, who) && r[e] == Cleared(reactions, who)[e]
    {
      var key :| key in keys;
      r := r[key := Without(r[key], who)];
      if r[key] == [] { r := r - {key}; }
      keys := keys - {key};
    }
    assert r == Cleared(reactions, who);
    if emoji.Some? {
      r := r[emoji.value := (if emoji.value in r then r[emoji.value] else []) + [who]];
    }
  }

  /** `f` on every message with the id, the others untouched. */
  function Update(msgs: seq<ChatMessage>, id: nat, f: ChatMessage -> ChatMessage): (r: seq<ChatMessage>)
    ensures |r| == |msgs| && forall i | 0 <= i < |msgs| :: r[i] == if msgs[i].id == id then f(msgs[i]) else msgs[i]
  {
    if msgs == [] then [] else [if msgs[0].id == id then f(msgs[0]) else msgs[0]] + Update(msgs[1..], id, f)
  }

  function Remove(msgs: seq<ChatMessage>, id: nat): (r: seq<ChatMessage>)
    ensures forall m :: m in r <==> m in msgs && m.id != id
  {
    if msgs == [] then [] else (if msgs[0].id == id then [] else [msgs[0]]) + Remove(msgs[1..], id)
  }

  predicate HasId(msgs: seq<ChatMessage>, id: nat) {
    exists i | 0 <= i < |msgs| :: msgs[i].id == id
  }

  /** A payload of the peer, decrypted. */
  function Inbound(msgs: seq<ChatMessage>, p: Payload): seq<ChatMessage> {
    match p
    case Text(id, text) => if HasId(msgs, id) then msgs else msgs + [ChatMessage(id, Them, text, false, false, map[])]
    case Edit(id, text) =>
      Update(msgs, id, (m: ChatMessage) => if m.deleted then m else m.(text := text, edited := true))
    case Delete(id) => Remove(msgs, id)
    case Reaction(id, emoji) =>
      Update(msgs, id, (m: ChatMessage) => m.(reactions := React(m.reactions, Them, emoji)))
  }

  /** The same operation as its author applies it, before it is sent. */
  function Own(msgs: seq<ChatMessage>, p: Payload): seq<ChatMessage> {
    match p
    case Text(id, text) => msgs + [ChatMessage(id, Me, text, false, false, map[])]
    case Edit(id, text) => Update(msgs, id, (m: ChatMessage) => m.(text := text, edited := true))
    case Delete(id) => Remove(msgs, id)
    case Reaction(id, emoji) =>
      Update(msgs, id, (m: ChatMessage) => m.(reactions := React(m.reactions, Me, emoji)))
  }

  // ---- What a list says about one id ----------------------------------------------

  /** A message as its reader sees it: whose it is, its text, and each side's emojis. */
  datatype Seen = Seen(author: Who, text: string, edited: bool, me: set<Emoji>, them: set<Emoji>)

  ghost function EmojisOf(r: Reactions, who: Who): set<Emoji> {
    set e | e in r && who in r[e]
  }

  ghost function See(m: ChatMessage): Seen {
    Seen(m.sender, m.text, m.edited, EmojisOf(m.reactions, Me), EmojisOf(m.reactions, Them))
  }

  ghost function Cell(msgs: seq<ChatMessage>, id: nat): Option<Seen> {
    if msgs == [] then None else if msgs[0].id == id then Some(See(msgs[0])) else Cell(msgs[1..], id)
  }

  lemma {:induction false} CellOfList(msgs: seq<ChatMessage>, id: nat)
    ensures Cell(msgs, id).Some? <==> HasId(msgs, id)
    ensures Cell(msgs, id).Some? ==> exists m | m in msgs :: m.id == id && Cell(msgs, id) == Some(See(m))
  {
    if msgs != [] {
      CellOfList(msgs[1..], id);
      if HasId(msgs, id) && msgs[0].id != id {
        var i :| 0 <= i < |msgs| && msgs[i].id == id;
        assert msgs[1..][i - 1].id == id;
      }
    }
  }

  ghost function Emojis(emoji: Option<Emoji>): set<Emoji> {
    if emoji.None? then {} else {emoji.value}
  }

  /** What one operation does to what is seen of its target. */
  ghost function CellOp(c: Option<Seen>, p: Payload, who: Who): Option<Seen> {
    match p
    case Text(_, text) => if c.Some? then c else Some(Seen(who, text, false, {}, {}))
    case Edit(_, text) => if c.None? then c else Some(c.value.(text := text, edited := true))
    case Delete(_) => None
    case Reaction(_, emoji) =>
      if c.None? then c else
      Some(if who == Me then c.value.(me := Emojis(emoji)) else c.value.(them := Emojis(emoji)))
  }

  /** Nobody has two emojis on a message, no emoji is listed without a reactor or with one twice. */
  ghost predicate Tidy(r: Reactions) {
    && (forall e | e in r :: r[e] != [] && NoRepeats(r[e]))
    && (forall w, e, f | e in EmojisOf(r, w) && f in EmojisOf(r, w) :: e == f)
  }

  ghost predicate Good(msgs: seq<ChatMessage>) {
    && (forall i, j | 0 <= i < j < |msgs| :: msgs[i].id != msgs[j].id)
    && (forall m | m in msgs :: !m.deleted && Tidy(m.reactions))
  }

  lemma ReactEmojis(r: Reactions, who: Who, emoji: Option<Emoji>, w: Who)
    ensures EmojisOf(React(r, who, emoji), w) == if w == who then Emojis(emoji) else EmojisOf(r, w)
  {
    var r', cleared := React(r, who, emoji), Cleared(r, who);
    forall e ensures e in EmojisOf(r', w) <==> e in if w == who then Emojis(emoji) else EmojisOf(r, w) {
      assert w in (if e in cleared then cleared[e] else []) <==> e in r && w in r[e] && w != who;
    }
  }

  lemma ReactIsTidy(r: Reactions, who: Who, emoji: Option<Emoji>)
    requires Tidy(r)
    ensures Tidy(React(r, who, emoji))
  {
    var r', cleared := React(r, who, emoji), Cleared(r, who);
    forall e | e in r' ensures r'[e] != [] && NoRepeats(r'[e]) {
      if e in r { WithoutNoRepeats(r[e], who); }
      var base := if e in cleared then cleared[e] else [];
      assert NoRepeats(base) && who !in base;
      assert r'[e] == base || r'[e] == base + [who];
    }
    forall w, e, f | e in EmojisOf(r', w) && f in EmojisOf(r', w) ensures e == f {
      ReactEmojis(r, who, emoji, w);
    }
  }

  // ---- The list operations, seen through one id -----------------------------------

  lemma {:induction false} CellOfAppend(msgs: seq<ChatMessage>, m: ChatMessage, id: nat)
    ensures Cell(msgs + [m], id) == if Cell(msgs, id).Some? || m.id != id then Cell(msgs, id) else Some(See(m))
  {
    if msgs != [] {
      assert (msgs + [m])[1..] == msgs[1..] + [m];
      CellOfAppend(msgs[1..], m, id);
    }
  }

  lemma {:induction false} CellOfRemove(msgs: seq<ChatMessage>, target: nat, id: nat)
    ensures Cell(Remove(msgs, target), id) == if id == target then None else Cell(msgs, id)
  {
    if msgs != [] {
      CellOfRemove(msgs[1..], target, id);
      assert [] + Remove(msgs[1..], target) == Remove(msgs[1..], target);
    }
  }

  lemma {:induction false} CellOfUpdate(msgs: seq<ChatMessage>, target: nat, f: ChatMessage -> ChatMessage, id: nat, p: Payload, who: Who)
    requires forall m | m in msgs && m.id == target :: f(m).id == m.id && CellOp(Some(See(m)), p, who) == Some(See(f(m)))
    requires p.Edit? || p.Reaction?
    ensures Cell(Update(msgs, target, f), id) == if id == target then CellOp(Cell(msgs, id), p, who) else Cell(msgs, id)
  {
    if msgs != [] { CellOfUpdate(msgs[1..], target, f, id, p, who); }
  }

  lemma InboundEditRefines(msgs: seq<ChatMessage>, t: nat, text: string, id: nat)
    requires Good(msgs)
    ensures var r := Inbound(msgs, Edit(t, text));
            Good(r) && Cell(r, id) == if id == t then CellOp(Cell(msgs, id), Edit(t, text), Them) else Cell(msgs, id)
  {
    CellOfUpdate(msgs, t, (m: ChatMessage) => if m.deleted then m else m.(text := text, edited := true), id, Edit(t, text), Them);
  }

  lemma OwnEditRefines(msgs: seq<ChatMessage>, t: nat, text: string, id: nat)
    requires Good(msgs)
    ensures var r := Own(msgs, Edit(t, text));
            Good(r) && Cell(r, id) == if id == t then CellOp(Cell(msgs, id), Edit(t, text), Me) else Cell(msgs, id)
  {
    CellOfUpdate(msgs, t, (m: ChatMessage) => m.(text := text, edited := true), id, Edit(t, text), Me);
  }

  /** Reading one id out of the list commutes with every operation, and the list stays good. */
  lemma InboundRefines(msgs: seq<ChatMessage>, p: Payload, id: nat)
    requires Good(msgs)
    ensures Good(Inbound(msgs, p))
    ensures Cell(Inbound(msgs, p), id) == if id == p.id then CellOp(Cell(msgs, id), p, Them) else Cell(msgs, id)
  {
    hide Good, Cell;
    match p
    case Text(t, text) =>
      AppendRefines(msgs, t, Them, text, id);
    case Edit(t, text) => InboundEditRefines(msgs, t, text, id);
    case Delete(t) => CellOfRemove(msgs, t, id); RemoveGood(msgs, t);
    case Reaction(t, emoji) => ReactRefines(msgs, t, Them, emoji, id);
  }

  lemma OwnRefines(msgs: seq<ChatMessage>, p: Payload, id: nat)
    requires Good(msgs) && (p.Text? ==> !HasId(msgs, p.id))
    ensures Good(Own(msgs, p))
    ensures Cell(Own(msgs, p), id) == if id == p.id then CellOp(Cell(msgs, id), p, Me) else Cell(msgs, id)
  {
    hide Good, Cell;
    match p
    case Text(t, text) =>
      AppendRefines(msgs, t, Me, text, id);
    case Edit(t, text) => OwnEditRefines(msgs, t, text, id);
    case Delete(t) => CellOfRemove(msgs, t, id); RemoveGood(msgs, t);
    case Reaction(t, emoji) => ReactRefines(msgs, t, Me, emoji, id);
  }

  lemma AppendRefines(msgs: seq<ChatMessage>, t: nat, who: Who, text: string, id: nat)
    requires Good(msgs)
    ensures var m := ChatMessage(t, who, text, false, false, map[]);
            && (!HasId(msgs, t) ==> Good(msgs + [m]))
            && (HasId(msgs, t) <==> Cell(msgs, t).Some?)
            && (!HasId(msgs, t) ==> Cell(msgs + [m], id) == if id == t then CellOp(Cell(msgs, id), Text(t, text), who) else Cell(msgs, id))
  {
    CellOfList(msgs, t);
    var m := ChatMessage(t, who, text, false, false, map[]);
    assert EmojisOf(m.reactions, Me) == {} && EmojisOf(m.reactions, Them) == {};
    CellOfAppend(msgs, m, id);
  }

  lemma {:induction false} RemoveGood(msgs: seq<ChatMessage>, id: nat)
    requires Good(msgs)
    ensures Good(Remove(msgs, id))
  {
    hide Tidy;
    if msgs != [] {
      var rest := msgs[1..];
      assert forall i | 0 <= i < |rest| :: rest[i] == msgs[i + 1];
      RemoveGood(rest, id);
      var kept := Remove(rest, id);
      forall i | 0 <= i < |kept| ensures kept[i].id != msgs[0].id { assert kept[i] in rest; }
      assert Remove(msgs, id) == if msgs[0].id == id then kept else [msgs[0]] + kept;
    }
  }

  lemma ReactRefines(msgs: seq<ChatMessage>, t: nat, who: Who, emoji: Option<Emoji>, id: nat)
    requires Good(msgs)
    ensures var r := Update(msgs, t, (m: ChatMessage) => m.(reactions := React(m.reactions, who, emoji)));
            Good(r) && Cell(r, id) == if id == t then CellOp(Cell(msgs, id), Reaction(t, emoji), who) else Cell(msgs, id)
  {
    forall m | m in msgs ensures Tidy(React(m.reactions, who, emoji))
    ensures var m' := m.(reactions := React(m.reactions, who, emoji)); CellOp(Some(See(m)), Reaction(t, emoji), who) == Some(See(m'))
    {
      ReactIsTidy(m.reactions, who, emoji);
      ReactEmojis(m.reactions, who, emoji, Me);
      ReactEmojis(m.reactions, who, emoji, Them);
    }
    CellOfUpdate(msgs, t, (m: ChatMessage) => m.(reactions := React(m.reactions, who, emoji)), id, Reaction(t, emoji), who);
  }

  // ---- Two sides and the payloads between them ------------------------------------

  /** One side: its list, and what it sent and the other has not yet received. */
  datatype Side = Side(msgs: seq<ChatMessage>, out: seq<Payload>)

  datatype Name = Alice | Bob

  function Other(n: Name): Name {
    if n == Alice then Bob else Alice
  }

  /** `authors` remembers who used which id. */
  datatype World = World(alice: Side, bob: Side, authors: map<nat, Name>) {
    function Of(n: Name): Side {
      if n == Alice then alice else bob
    }

    function With(n: Name, s: Side): World {
      if n == Alice then this.(alice := s) else this.(bob := s)
    }
  }

  datatype Event = Do(who: Name, p: Payload) | Receive(who: Name)

  predicate Possible(w: World, e: Event) {
    e.Receive? ==> w.Of(Other(e.who)).out != []
  }

  function Step(w: World, e: Event): World
    requires Possible(w, e)
  {
    match e
    case Do(n, p) =>
      var w' := w.With(n, Side(Own(w.Of(n).msgs, p), w.Of(n).out + [p]));
      if p.Text? then w'.(authors := w.authors[p.id := n]) else w'
    case Receive(n) =>
      var peer := w.Of(Other(n));
      w.With(n, w.Of(n).(msgs := Inbound(w.Of(n).msgs, peer.out[0]))).With(Other(n), peer.(out := peer.out[1..]))
  }

  /** Ids are fresh, edits and deletes are of one's own messages, and a reaction is to one's
      own message, to one that is shown, or one that makes no difference to its author. */
  ghost predicate Allowed(w: World, e: Event) {
    match e
    case Do(n, Text(id, _)) => id !in w.authors
    case Do(n, Reaction(id, emoji)) =>
      || HasId(w.Of(n).msgs, id)
      || (id in w.authors && (w.authors[id] == n || Harmless(w.Of(Other(n)), w.Of(n), id, emoji)))
    case Do(n, p) => p.id in w.authors && w.authors[p.id] == n
    case Receive(n) => w.Of(Other(n)).out != []
  }

  ghost predicate AllowedRun(w: World, run: seq<Event>)
    decreases |run|
  {
    run == [] || (Allowed(w, run[0]) && AllowedRun(Step(w, run[0]), run[1..]))
  }

  ghost function Run(w: World, run: seq<Event>): World
    requires AllowedRun(w, run)
    decreases |run|
  {
    if run == [] then w else Run(Step(w, run[0]), run[1..])
  }

  const START := World(Side([], []), Side([], []), map[])

  /** The same message as the other side sees it. */
  ghost function Mirror(c: Option<Seen>): Option<Seen> {
    match c
    case None => None
    case Some(Seen(author, text, edited, me, them)) => Some(Seen(if author == Me then Them else Me, text, edited, them, me))
  }

  // ---- One id under the payloads still to come ------------------------------------

  ghost function Flush(c: Option<Seen>, q: seq<Payload>, id: nat): Option<Seen>
    decreases |q|
  {
    if q == [] then c else Flush(if q[0].id == id then CellOp(c, q[0], Them) else c, q[1..], id)
  }

  /** What author `x` will see of the id once all of `y`'s payloads have arrived is nothing,
      or already has this reaction from the other side. */
  ghost predicate Harmless(x: Side, y: Side, id: nat, emoji: Option<Emoji>) {
    var c := Flush(Cell(x.msgs, id), y.out, id);
    c.None? || c.value.them == Emojis(emoji)
  }

  lemma {:induction false} FlushAppend(c: Option<Seen>, q: seq<Payload>, p: Payload, id: nat)
    ensures Flush(c, q + [p], id) == if p.id == id then CellOp(Flush(c, q, id), p, Them) else Flush(c, q, id)
    decreases |q|
  {
    if q != [] {
      assert (q + [p])[1..] == q[1..] + [p];
      FlushAppend(if q[0].id == id then CellOp(c, q[0], Them) else c, q[1..], p, id);
    } else {
      assert (q + [p])[1..] == [];
    }
  }

  predicate NoneFor(q: seq<Payload>, id: nat) {
    forall p | p in q :: p.id != id
  }

  predicate NoText(q: seq<Payload>, id: nat) {
    forall p | p in q && p.id == id :: !p.Text?
  }

  predicate OnlyReactions(q: seq<Payload>, id: nat) {
    forall p | p in q && p.id == id :: p.Reaction?
  }

  predicate OneText(q: seq<Payload>, id: nat) {
    forall i, j | 0 <= i < j < |q| && q[i].id == id && q[j].id == id :: !(q[i].Text? && q[j].Text?)
  }

  lemma {:induction false} FlushNone(c: Option<Seen>, q: seq<Payload>, id: nat)
    requires NoneFor(q, id)
    ensures Flush(c, q, id) == c
    decreases |q|
  {
    if q != [] { FlushNone(c, q[1..], id); }
  }

  /** An own operation commutes with the payloads still to come: the author's with the
      other side's reactions, a reaction with anything but the message itself. */
  lemma {:induction false} OwnCommutes(c: Option<Seen>, p: Payload, q: seq<Payload>, id: nat)
    requires p.id == id && !p.Text?
    requires OnlyReactions(q, id) || (p.Reaction? && NoText(q, id))
    ensures Flush(CellOp(c, p, Me), q, id) == CellOp(Flush(c, q, id), p, Me)
    decreases |q|
  {
    if q != [] { OwnCommutes(if q[0].id == id then CellOp(c, q[0], Them) else c, p, q[1..], id); }
  }

  lemma MirrorOp(c: Option<Seen>, p: Payload)
    ensures Mirror(CellOp(c, p, Them)) == CellOp(Mirror(c), p, Me)
  {
  }

  // ---- The invariant --------------------------------------------------------------

  ghost predicate Unused(x: Side, y: Side, id: nat) {
    Cell(x.msgs, id).None? && Cell(y.msgs, id).None? && NoneFor(x.out, id) && NoneFor(y.out, id)
  }

  /** What holds of an id that `x` authored and `y` is to show. */
  ghost predicate Linked(x: Side, y: Side, id: nat) {
    && OnlyReactions(y.out, id) && OneText(x.out, id)
    && (Cell(y.msgs, id).Some? ==> NoText(x.out, id))
    && Mirrored(x, y, id)
  }

  /** Both sides will see the same of the id once everything in flight has arrived. */
  ghost predicate Mirrored(x: Side, y: Side, id: nat) {
    Flush(Cell(x.msgs, id), y.out, id) == Mirror(Flush(Cell(y.msgs, id), x.out, id))
  }

  ghost predicate IdOk(w: World, id: nat) {
    if id in w.authors then Linked(w.Of(w.authors[id]), w.Of(Other(w.authors[id])), id) else Unused(w.alice, w.bob, id)
  }

  ghost predicate Inv(w: World) {
    Good(w.alice.msgs) && Good(w.bob.msgs) && forall id: nat :: IdOk(w, id)
  }

  lemma AuthorActs(x: Side, y: Side, p: Payload, id: nat)
    requires Good(x.msgs) && Linked(x, y, id) && p.id == id && !p.Text?
    ensures Linked(Side(Own(x.msgs, p), x.out + [p]), y, id)
  {
    OwnRefines(x.msgs, p, id);
    FlushAppend(Cell(y.msgs, id), x.out, p, id);
    OwnCommutes(Cell(x.msgs, id), p, y.out, id);
    MirrorOp(Flush(Cell(y.msgs, id), x.out, id), p);
  }

  lemma ReaderReacts(x: Side, y: Side, p: Payload, id: nat)
    requires Good(y.msgs) && Linked(x, y, id) && p.id == id && p.Reaction? && HasId(y.msgs, id)
    ensures Linked(x, Side(Own(y.msgs, p), y.out + [p]), id)
  {
    OwnRefines(y.msgs, p, id);
    CellOfList(y.msgs, id);
    FlushAppend(Cell(x.msgs, id), y.out, p, id);
    OwnCommutes(Cell(y.msgs, id), p, x.out, id);
    MirrorOp(Flush(Cell(x.msgs, id), y.out, id), p);
    MirrorOp(Flush(Cell(y.msgs, id), x.out, id), p);
  }

  /** A reaction by `y` to a message of `x` that is not shown to `y` keeps the two sides in
      step if and only if it makes no difference to `x`. */
  lemma EarlyReaction(x: Side, y: Side, p: Payload, id: nat)
    requires Good(y.msgs) && Linked(x, y, id) && p.id == id && p.Reaction? && !HasId(y.msgs, id)
    ensures var y' := Side(Own(y.msgs, p), y.out + [p]);
            && (Mirrored(x, y', id) <==> Harmless(x, y, id, p.emoji))
            && (Harmless(x, y, id, p.emoji) ==> Linked(x, y', id))
  {
    OwnRefines(y.msgs, p, id);
    CellOfList(y.msgs, id);
    FlushAppend(Cell(x.msgs, id), y.out, p, id);
  }

  lemma TextIsSent(x: Side, y: Side, p: Payload, id: nat)
    requires Good(x.msgs) && Unused(x, y, id) && p.id == id && p.Text?
    ensures Linked(Side(Own(x.msgs, p), x.out + [p]), y, id)
  {
    CellOfList(x.msgs, id);
    OwnRefines(x.msgs, p, id);
    FlushAppend(Cell(y.msgs, id), x.out, p, id);
    FlushNone(Cell(y.msgs, id), x.out, id);
    FlushNone(Cell(Own(x.msgs, p), id), y.out, id);
  }

  /** Operations on another id, by either side, leave this one as it was. */
  lemma OthersAct(x: Side, y: Side, p: Payload, id: nat)
    requires Good(x.msgs) && p.id != id && (p.Text? ==> !HasId(x.msgs, p.id))
    ensures var x' := Side(Own(x.msgs, p), x.out + [p]);
            && (Linked(x, y, id) ==> Linked(x', y, id)) && (Linked(y, x, id) ==> Linked(y, x', id))
            && (Unused(x, y, id) ==> Unused(x', y, id)) && (Unused(y, x, id) ==> Unused(y, x', id))
  {
    OwnRefines(x.msgs, p, id);
    FlushAppend(Cell(y.msgs, id), x.out, p, id);
  }

  lemma Delivered(x: Side, y: Side, id: nat)
    requires Good(y.msgs) && x.out != []
    ensures var x', y' := x.(out := x.out[1..]), y.(msgs := Inbound(y.msgs, x.out[0]));
            && (Linked(x, y, id) ==> Linked(x', y', id)) && (Linked(y, x, id) ==> Linked(y', x', id))
            && (Unused(x, y, id) ==> Unused(x', y', id)) && (Unused(y, x, id) ==> Unused(y', x', id))
  {
    InboundRefines(y.msgs, x.out[0], id);
  }

  lemma ActedId(w: World, n: Name, p: Payload, id: nat)
    requires Inv(w) && Allowed(w, Do(n, p))
    ensures IdOk(Step(w, Do(n, p)), id)
  {
    var x, y := w.Of(n), w.Of(Other(n));
    assert IdOk(w, p.id) && IdOk(w, id);
    CellOfList(x.msgs, p.id);
    if p.id != id {
      OthersAct(x, y, p, id);
    } else if p.Text? {
      TextIsSent(x, y, p, id);
    } else if w.authors[id] == n {
      AuthorActs(x, y, p, id);
    } else if HasId(x.msgs, id) {
      ReaderReacts(y, x, p, id);
    } else {
      EarlyReaction(y, x, p, id);
    }
  }

  lemma StepKeeps(w: World, e: Event)
    requires Inv(w) && Allowed(w, e)
    ensures Inv(Step(w, e))
  {
    match e
    case Do(n, p) =>
      assert IdOk(w, p.id);
      CellOfList(w.Of(n).msgs, p.id);
      OwnRefines(w.Of(n).msgs, p, p.id);
      forall id: nat ensures IdOk(Step(w, e), id) { ActedId(w, n, p, id); }
    case Receive(n) =>
      InboundRefines(w.Of(n).msgs, w.Of(Other(n)).out[0], 0);
      forall id: nat ensures IdOk(Step(w, e), id) {
        assert IdOk(w, id);
        Delivered(w.Of(Other(n)), w.Of(n), id);
      }
  }

  lemma {:induction false} RunKeeps(w: World, run: seq<Event>)
    requires Inv(w) && AllowedRun(w, run)
    ensures Inv(Run(w, run))
    decreases |run|
  {
    if run != [] {
      StepKeeps(w, run[0]);
      RunKeeps(Step(w, run[0]), run[1..]);
    }
  }

  // ---- What the two sides see -----------------------------------------------------

  /** After any run, however the two directions interleave: nobody ever has two emojis on
      a message; and once both queues are empty the lists agree on every id. */
  lemma Convergence(run: seq<Event>)
    requires AllowedRun(START, run)
    ensures var w := Run(START, run);
            && Good(w.alice.msgs) && Good(w.bob.msgs)
            && (w.alice.out == [] && w.bob.out == [] ==>
                  forall id: nat :: Cell(w.alice.msgs, id) == Mirror(Cell(w.bob.msgs, id)))
  {
    RunKeeps(START, run);
    var w := Run(START, run);
    if w.alice.out == [] && w.bob.out == [] {
      forall id: nat ensures Cell(w.alice.msgs, id) == Mirror(Cell(w.bob.msgs, id)) {
        assert IdOk(w, id);
      }
    }
  }

  /** At most one emoji a side, read off the stored lists themselves. */
  lemma OneEmojiEach(run: seq<Event>, m: ChatMessage, who: Who, e: Emoji, f: Emoji)
    requires AllowedRun(START, run)
    requires m in Run(START, run).alice.msgs || m in Run(START, run).bob.msgs
    requires e in m.reactions && f in m.reactions && who in m.reactions[e] && who in m.reactions[f]
    ensures e == f && |m.reactions[e]| <= 2
  {
    RunKeeps(START, run);
    assert Tidy(m.reactions) && e in EmojisOf(m.reactions, who) && f in EmojisOf(m.reactions, who);
    var s := m.reactions[e];
    assert |s| >= 3 ==> s[0] != s[1] && s[1] != s[2] && s[0] != s[2];
  }

  // ---- Reactions to what is not shown ---------------------------------------------

  predicate Delivering(w: World, run: seq<Event>)
    decreases |run|
  {
    run == [] || (run[0].Receive? && Possible(w, run[0]) && Delivering(Step(w, run[0]), run[1..]))
  }

  function Deliver(w: World, run: seq<Event>): World
    requires Delivering(w, run)
    decreases |run|
  {
    if run == [] then w else Deliver(Step(w, run[0]), run[1..])
  }

  /** What is in flight decides what both sides end up seeing. */
  lemma {:induction false} DeliveryKeepsFlush(w: World, run: seq<Event>, id: nat)
    requires Good(w.alice.msgs) && Good(w.bob.msgs) && Delivering(w, run)
    ensures var w' := Deliver(w, run);
            && Flush(Cell(w'.alice.msgs, id), w'.bob.out, id) == Flush(Cell(w.alice.msgs, id), w.bob.out, id)
            && Flush(Cell(w'.bob.msgs, id), w'.alice.out, id) == Flush(Cell(w.bob.msgs, id), w.alice.out, id)
    decreases |run|
  {
    if run != [] {
      var n := run[0].who;
      InboundRefines(w.Of(n).msgs, w.Of(Other(n)).out[0], id);
      DeliveryKeepsFlush(Step(w, run[0]), run[1..], id);
    }
  }

  lemma MirrorTwice(c: Option<Seen>)
    ensures Mirror(Mirror(c)) == c
  {
  }

  /** Exactly when reacting to a message not shown goes wrong: after any run, let one side
      react to a message of the other that it is not shown, and let everything then be
      delivered, in any order. The two sides see the same of that message if and only if
      the reaction makes no difference to its author. */
  lemma EarlyReactionOutcome(run: seq<Event>, n: Name, id: nat, emoji: Option<Emoji>, rest: seq<Event>)
    requires AllowedRun(START, run)
    requires var w := Run(START, run);
             && id in w.authors && w.authors[id] == Other(n) && !HasId(w.Of(n).msgs, id)
             && Delivering(Step(w, Do(n, Reaction(id, emoji))), rest)
             && var w' := Deliver(Step(w, Do(n, Reaction(id, emoji))), rest);
                w'.alice.out == [] && w'.bob.out == []
    ensures var w := Run(START, run);
            var w' := Deliver(Step(w, Do(n, Reaction(id, emoji))), rest);
            Cell(w'.alice.msgs, id) == Mirror(Cell(w'.bob.msgs, id)) <==> Harmless(w.Of(Other(n)), w.Of(n), id, emoji)
  {
    RunKeeps(START, run);
    var w, p := Run(START, run), Reaction(id, emoji);
    assert IdOk(w, id);
    var x, y := w.Of(Other(n)), w.Of(n);
    EarlyReaction(x, y, p, id);
    OwnRefines(y.msgs, p, id);
    var w1 := Step(w, Do(n, p));
    DeliveryKeepsFlush(w1, rest, id);
    MirrorTwice(Flush(Cell(w1.alice.msgs, id), w1.bob.out, id));
    MirrorTwice(Flush(Cell(w1.bob.msgs, id), w1.alice.out, id));
  }

  /** A message that was shown and has been deleted meanwhile can be reacted to: only while
      the message itself is still on its way can a reaction to it go wrong. */
  lemma LateReactionIsHarmless(run: seq<Event>, n: Name, id: nat, emoji: Option<Emoji>)
    requires AllowedRun(START, run)
    requires var w := Run(START, run);
             id in w.authors && w.authors[id] == Other(n) && !HasId(w.Of(n).msgs, id) && NoText(w.Of(Other(n)).out, id)
    ensures var w := Run(START, run); Harmless(w.Of(Other(n)), w.Of(n), id, emoji)
  {
    RunKeeps(START, run);
    var w := Run(START, run);
    assert IdOk(w, id);
    CellOfList(w.Of(n).msgs, id);
    DeletedStays(Cell(w.Of(n).msgs, id), w.Of(Other(n)).out, id);
  }

  /** An instance that does go wrong: the reaction is kept by the author of the message and
      by nobody else. */
  lemma EarlyReactionDiverges(text: string, e: Emoji)
    ensures var p, r := Text(1, text), Reaction(1, Some(e));
            var bob := Inbound(Own([], r), p);
            var alice := Inbound(Own([], p), r);
            Cell(bob, 1) == Some(Seen(Them, text, false, {}, {})) && Cell(alice, 1) == Some(Seen(Me, text, false, {}, {e}))
  {
    var p, r := Text(1, text), Reaction(1, Some(e));
    OwnRefines([], p, 1);
    OwnRefines([], r, 1);
    InboundRefines(Own([], r), p, 1);
    InboundRefines(Own([], p), r, 1);
  }

  /** A text delivered twice is dropped the second time exactly while its message is still
      in the list: delivered again after its deletion, it comes back. */
  lemma RedeliveredText(msgs: seq<ChatMessage>, id: nat, text: string, later: seq<Payload>)
    requires Good(msgs)
    ensures var now := InboundAll(Inbound(msgs, Text(id, text)), later);
            && (Inbound(now, Text(id, text)) == now <==> Cell(now, id).Some?)
            && (Delete(id) in later && NoText(later, id) ==>
                  Cell(Inbound(now, Text(id, text)), id) == Some(Seen(Them, text, false, {}, {})))
  {
    var first := Inbound(msgs, Text(id, text));
    InboundRefines(msgs, Text(id, text), id);
    InboundAllIsFlush(first, later, id);
    var now := InboundAll(first, later);
    CellOfList(now, id);
    InboundRefines(now, Text(id, text), id);
    if Delete(id) in later && NoText(later, id) { DeletedStays(Cell(first, id), later, id); }
  }

  function InboundAll(msgs: seq<ChatMessage>, q: seq<Payload>): seq<ChatMessage>
    decreases |q|
  {
    if q == [] then msgs else InboundAll(Inbound(msgs, q[0]), q[1..])
  }

  lemma {:induction false} InboundAllIsFlush(msgs: seq<ChatMessage>, q: seq<Payload>, id: nat)
    requires Good(msgs)
    ensures Good(InboundAll(msgs, q)) && Cell(InboundAll(msgs, q), id) == Flush(Cell(msgs, id), q, id)
    decreases |q|
  {
    if q != [] {
      InboundRefines(msgs, q[0], id);
      InboundAllIsFlush(Inbound(msgs, q[0]), q[1..], id);
    }
  }

  lemma {:induction false} DeletedStays(c: Option<Seen>, q: seq<Payload>, id: nat)
    requires NoText(q, id) && (c.None? || Delete(id) in q)
    ensures Flush(c, q, id).None?
    decreases |q|
  {
    if q != [] { DeletedStays(if q[0].id == id then CellOp(c, q[0], Them) else c, q[1..], id); }
  }
}
