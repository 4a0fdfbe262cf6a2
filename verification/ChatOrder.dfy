/** The order of messages: both sides list the messages of one author in the order in which
    their author sent them. */
module ChatOrder {
  import opened Common
  import opened Chat

  /** The ids of the messages of one sender, in the order of the list. */
  function By(msgs: seq<ChatMessage>, who: Who): seq<nat> {
    if msgs == [] then [] else
    By(msgs[..|msgs| - 1], who) + if msgs[|msgs| - 1].sender == who then [msgs[|msgs| - 1].id] else []
  }

  function Dropped(ids: seq<nat>, id: nat): seq<nat> {
    if ids == [] then [] else Dropped(ids[..|ids| - 1], id) + if ids[|ids| - 1] == id then [] else [ids[|ids| - 1]]
  }

  /** What a payload of their author does to the ids: only texts and deletions count. */
  function OrderOp(ids: seq<nat>, p: Payload): seq<nat> {
    match p
    case Text(id, _) => if id in ids then ids else ids + [id]
    case Delete(id) => Dropped(ids, id)
    case _ => ids
  }

  function OrderFlush(ids: seq<nat>, q: seq<Payload>): seq<nat> {
    if q == [] then ids else OrderOp(OrderFlush(ids, q[..|q| - 1]), q[|q| - 1])
  }

  lemma {:induction false} FlushFirst(ids: seq<nat>, q: seq<Payload>)
    requires q != []
    ensures OrderFlush(ids, q) == OrderFlush(OrderOp(ids, q[0]), q[1..])
  {
    var k := |q| - 1;
    if k == 0 {
      assert q[..0] == [] && q[1..] == [];
    } else {
      FlushFirst(ids, q[..k]);
      assert q[..k][1..] == q[1..][..k - 1] && q[1..][k - 1] == q[k];
    }
  }

  // ---- The list operations --------------------------------------------------------

  lemma {:induction false} ByOfAppend(msgs: seq<ChatMessage>, m: ChatMessage, who: Who)
    ensures By(msgs + [m], who) == By(msgs, who) + if m.sender == who then [m.id] else []
  {
    assert (msgs + [m])[..|msgs|] == msgs;
  }

  lemma {:induction false} ByOfCons(m: ChatMessage, msgs: seq<ChatMessage>, who: Who)
    ensures By([m] + msgs, who) == (if m.sender == who then [m.id] else []) + By(msgs, who)
  {
    if msgs == [] {
      assert [m] + msgs == [m] && [m][..0] == [];
    } else {
      var k := |msgs| - 1;
      assert [m] + msgs == [m] + msgs[..k] + [msgs[k]] && msgs == msgs[..k] + [msgs[k]];
      ByOfCons(m, msgs[..k], who);
      ByOfAppend([m] + msgs[..k], msgs[k], who);
      ByOfAppend(msgs[..k], msgs[k], who);
    }
  }

  lemma {:induction false} DroppedCons(x: nat, ids: seq<nat>, id: nat)
    ensures Dropped([x] + ids, id) == (if x == id then [] else [x]) + Dropped(ids, id)
  {
    if ids == [] {
      assert [x] + ids == [x] && [x][..0] == [];
    } else {
      var k := |ids| - 1;
      assert ([x] + ids)[..k + 1] == [x] + ids[..k];
      DroppedCons(x, ids[..k], id);
    }
  }

  lemma {:induction false} ByOfRemove(msgs: seq<ChatMessage>, id: nat, who: Who)
    ensures By(Remove(msgs, id), who) == Dropped(By(msgs, who), id)
  {
    if msgs != [] {
      ByOfRemove(msgs[1..], id, who);
      RemoveFirst(msgs[0], msgs[1..], id, who);
      assert msgs == [msgs[0]] + msgs[1..];
    }
  }

  lemma RemoveFirst(m: ChatMessage, msgs: seq<ChatMessage>, id: nat, who: Who)
    requires By(Remove(msgs, id), who) == Dropped(By(msgs, who), id)
    ensures By(Remove([m] + msgs, id), who) == Dropped(By([m] + msgs, who), id)
  {
    hide By, Dropped;
    var rest := Remove(msgs, id);
    ByOfCons(m, msgs, who);
    ByOfCons(m, rest, who);
    DroppedCons(m.id, By(msgs, who), id);
    assert ([m] + msgs)[1..] == msgs;
    Nothing(rest, By(msgs, who), By(rest, who));
  }

  lemma Nothing(msgs: seq<ChatMessage>, a: seq<nat>, b: seq<nat>)
    ensures [] + msgs == msgs && [] + a == a && [] + b == b
  {
  }

  lemma {:induction false} ByOfUpdate(msgs: seq<ChatMessage>, id: nat, f: ChatMessage -> ChatMessage, who: Who)
    requires forall m :: f(m).id == m.id && f(m).sender == m.sender
    ensures By(Update(msgs, id, f), who) == By(msgs, who)
  {
    if msgs != [] {
      var m, rest := msgs[0], Update(msgs[1..], id, f);
      ByOfUpdate(msgs[1..], id, f, who);
      ByOfCons(m, msgs[1..], who);
      ByOfCons(if m.id == id then f(m) else m, rest, who);
      assert msgs == [m] + msgs[1..];
    }
  }

  lemma {:induction false} InBy(msgs: seq<ChatMessage>, who: Who, id: nat)
    ensures id in By(msgs, who) <==> exists m | m in msgs :: m.id == id && m.sender == who
  {
    if msgs != [] {
      var k := |msgs| - 1;
      InBy(msgs[..k], who, id);
      assert msgs == msgs[..k] + [msgs[k]];
    }
  }

  lemma {:induction false} DropNothing(ids: seq<nat>, id: nat)
    requires id !in ids
    ensures Dropped(ids, id) == ids
  {
    if ids != [] {
      DropNothing(ids[..|ids| - 1], id);
      assert ids == ids[..|ids| - 1] + [ids[|ids| - 1]];
    }
  }

  /** The ids of one sender after an operation; `added` says whether a text joins them. */
  function Changed(ids: seq<nat>, p: Payload, added: bool): seq<nat> {
    match p
    case Text(id, _) => if added then ids + [id] else ids
    case Delete(id) => Dropped(ids, id)
    case _ => ids
  }

  /** An own operation, on the ids of either sender. */
  lemma OwnOrder(msgs: seq<ChatMessage>, p: Payload, who: Who)
    ensures By(Own(msgs, p), who) == Changed(By(msgs, who), p, who == Me)
  {
    match p
    case Text(id, text) => ByOfAppend(msgs, ChatMessage(id, Me, text, false, false, map[]), who);
    case Edit(id, text) => ByOfUpdate(msgs, id, (m: ChatMessage) => m.(text := text, edited := true), who);
    case Delete(id) => ByOfRemove(msgs, id, who);
    case Reaction(id, emoji) => ByOfUpdate(msgs, id, (m: ChatMessage) => m.(reactions := React(m.reactions, Me, emoji)), who);
  }

  lemma InboundOrder(msgs: seq<ChatMessage>, p: Payload, who: Who)
    ensures By(Inbound(msgs, p), who) == Changed(By(msgs, who), p, who == Them && !HasId(msgs, p.id))
  {
    match p
    case Text(id, text) =>
      ByOfAppend(msgs, ChatMessage(id, Them, text, false, false, map[]), who);
    case Edit(id, text) =>
      ByOfUpdate(msgs, id, (m: ChatMessage) => if m.deleted then m else m.(text := text, edited := true), who);
    case Delete(id) => ByOfRemove(msgs, id, who);
    case Reaction(id, emoji) => ByOfUpdate(msgs, id, (m: ChatMessage) => m.(reactions := React(m.reactions, Them, emoji)), who);
  }

  // ---- Who wrote what -------------------------------------------------------------

  /** Every listed message is marked with its author, and texts and deletions in flight are
      of their sender's own messages. */
  ghost predicate Marked(w: World, n: Name) {
    && (forall m | m in w.Of(n).msgs :: m.id in w.authors && (m.sender == Me <==> w.authors[m.id] == n))
    && (forall p | p in w.Of(n).out && (p.Text? || p.Delete?) :: p.id in w.authors && w.authors[p.id] == n)
  }

  lemma IdsAfterOwn(msgs: seq<ChatMessage>, p: Payload, m: ChatMessage)
    requires m in Own(msgs, p)
    ensures (p.Text? && m.id == p.id && m.sender == Me) || exists m0 | m0 in msgs :: m0.id == m.id && m0.sender == m.sender
  {
    if !p.Text? && !p.Delete? {
      var i :| 0 <= i < |Own(msgs, p)| && Own(msgs, p)[i] == m;
      assert msgs[i] in msgs && msgs[i].id == m.id && msgs[i].sender == m.sender;
    }
  }

  lemma IdsAfterInbound(msgs: seq<ChatMessage>, p: Payload, m: ChatMessage)
    requires m in Inbound(msgs, p)
    ensures (p.Text? && m.id == p.id && m.sender == Them) || exists m0 | m0 in msgs :: m0.id == m.id && m0.sender == m.sender
  {
    if !p.Text? && !p.Delete? {
      var i :| 0 <= i < |Inbound(msgs, p)| && Inbound(msgs, p)[i] == m;
      assert msgs[i] in msgs && msgs[i].id == m.id && msgs[i].sender == m.sender;
    }
  }

  lemma MarkedStays(w: World, e: Event, n: Name)
    requires Allowed(w, e) && Marked(w, Alice) && Marked(w, Bob)
    ensures Marked(Step(w, e), n)
  {
    hide Own, Inbound;
    var w' := Step(w, e);
    forall m | m in w'.Of(n).msgs ensures m.id in w'.authors && (m.sender == Me <==> w'.authors[m.id] == n) {
      if e.who == n {
        if e.Do? { IdsAfterOwn(w.Of(n).msgs, e.p, m); } else { IdsAfterInbound(w.Of(n).msgs, w.Of(Other(n)).out[0], m); }
      }
    }
  }

  // ---- The order invariant --------------------------------------------------------

  /** The reader's list, once everything of the author has arrived, is in the author's order. */
  ghost predicate InStep(w: World, n: Name) {
    By(w.Of(n).msgs, Me) == OrderFlush(By(w.Of(Other(n)).msgs, Them), w.Of(n).out)
  }

  /** An id of one side's is in no message that the other side wrote. */
  lemma OthersIds(w: World, n: Name, id: nat)
    requires Marked(w, n)
    ensures id in w.authors && w.authors[id] == n ==> id !in By(w.Of(n).msgs, Them)
    ensures id in w.authors && w.authors[id] == Other(n) ==> id !in By(w.Of(n).msgs, Me)
    ensures id !in w.authors ==> id !in By(w.Of(n).msgs, Me)
    ensures id in w.authors && w.authors[id] == Other(n) ==> (HasId(w.Of(n).msgs, id) <==> id in By(w.Of(n).msgs, Them))
  {
    InBy(w.Of(n).msgs, Me, id);
    InBy(w.Of(n).msgs, Them, id);
    var msgs := w.Of(n).msgs;
    if HasId(msgs, id) {
      var i :| 0 <= i < |msgs| && msgs[i].id == id;
      assert msgs[i] in msgs;
    }
  }

  /** The author's own operation, and the payload it puts in flight. */
  lemma AuthorInStep(w: World, n: Name, p: Payload)
    requires Allowed(w, Do(n, p)) && Marked(w, n) && InStep(w, n)
    ensures InStep(Step(w, Do(n, p)), n)
  {
    hide Own, By, OrderFlush;
    OwnOrder(w.Of(n).msgs, p, Me);
    OthersIds(w, n, p.id);
    FlushOneMore(By(w.Of(Other(n)).msgs, Them), w.Of(n).out, p);
  }

  lemma FlushOneMore(ids: seq<nat>, q: seq<Payload>, p: Payload)
    ensures OrderFlush(ids, q + [p]) == OrderOp(OrderFlush(ids, q), p)
  {
    assert (q + [p])[..|q|] == q;
  }

  /** An operation of the reader leaves the author's messages in their order. */
  lemma ReaderInStep(w: World, n: Name, p: Payload)
    requires Allowed(w, Do(n, p)) && Marked(w, n) && InStep(w, Other(n))
    ensures InStep(Step(w, Do(n, p)), Other(n))
  {
    hide Own, By, OrderFlush;
    OwnOrder(w.Of(n).msgs, p, Them);
    if p.Delete? {
      OthersIds(w, n, p.id);
      DropNothing(By(w.Of(n).msgs, Them), p.id);
    }
  }

  lemma ArrivalInStep(w: World, n: Name, m: Name)
    requires Allowed(w, Receive(n)) && Marked(w, n) && Marked(w, Other(n)) && InStep(w, m)
    ensures InStep(Step(w, Receive(n)), m)
  {
    hide Inbound, By, OrderFlush;
    var p := w.Of(Other(n)).out[0];
    assert p in w.Of(Other(n)).out;
    if p.Text? || p.Delete? { OthersIds(w, n, p.id); }
    if m == n {
      InboundOrder(w.Of(n).msgs, p, Me);
      if p.Delete? { DropNothing(By(w.Of(n).msgs, Me), p.id); }
    } else {
      InboundOrder(w.Of(n).msgs, p, Them);
      FlushFirst(By(w.Of(n).msgs, Them), w.Of(m).out);
    }
  }

  ghost predicate OrderInv(w: World) {
    Marked(w, Alice) && Marked(w, Bob) && InStep(w, Alice) && InStep(w, Bob)
  }

  lemma OrderStep(w: World, e: Event)
    requires OrderInv(w) && Allowed(w, e)
    ensures OrderInv(Step(w, e))
  {
    hide InStep, Marked;
    MarkedStays(w, e, Alice);
    MarkedStays(w, e, Bob);
    match e
    case Do(n, p) =>
      AuthorInStep(w, n, p);
      ReaderInStep(w, n, p);
    case Receive(n) =>
      ArrivalInStep(w, n, Alice);
      ArrivalInStep(w, n, Bob);
  }

  lemma {:induction false} OrderOverRun(w: World, run: seq<Event>)
    requires OrderInv(w) && AllowedRun(w, run)
    ensures OrderInv(Run(w, run))
    decreases |run|
  {
    hide OrderInv, Step;
    if run != [] {
      OrderStep(w, run[0]);
      OrderOverRun(Step(w, run[0]), run[1..]);
    }
  }

  /** After any run, as soon as everything one side sent has arrived, the other side lists
      its messages in the order it lists them itself. */
  lemma SameOrder(run: seq<Event>, n: Name)
    requires AllowedRun(START, run) && Run(START, run).Of(n).out == []
    ensures var w := Run(START, run); By(w.Of(n).msgs, Me) == By(w.Of(Other(n)).msgs, Them)
  {
    assert OrderInv(START);
    OrderOverRun(START, run);
  }

  // ---- A message that is marked as deleted ----------------------------------------

  /** An incoming edit leaves a message marked as deleted alone, and changes every other with
      its id. */
  lemma EditSparesDeleted(msgs: seq<ChatMessage>, id: nat, text: string, i: nat)
    requires i < |msgs|
    ensures var r := Inbound(msgs, Edit(id, text));
            |r| == |msgs| && r[i] == if msgs[i].id == id && !msgs[i].deleted then msgs[i].(text := text, edited := true) else msgs[i]
  {
  }

  /** One's reaction is listed after those that were there. */
  lemma ReactorsInOrder(r: Reactions, who: Who, e: Emoji)
    ensures e in React(r, who, Some(e))
    ensures React(r, who, Some(e))[e] == (if e in r then Without(r[e], who) else []) + [who]
  {
  }
}
