/** Two players trading: who is linked to whom, what is offered, and when things change hands. */
module Trade {

  datatype TradeState = NoTrade | Initiated | Accepted | Acknowledged | Transfer

  class Item {
    var owner: Player?
  }

  class Player {
    const id: nat
    var tradeState: TradeState
    var tradePartner: Player?
    var tradeItem: Item?

    constructor (id: nat)
      ensures this.id == id && tradeState == NoTrade && tradePartner == null && tradeItem == null
    {
      this.id, tradeState, tradePartner, tradeItem := id, NoTrade, null, null;
    }

    method SetTrade(state: TradeState, partner: Player?)
      modifies this`tradeState, this`tradePartner
      ensures tradeState == state && tradePartner == partner
    {
      tradeState, tradePartner := state, partner;
    }
  }

  /** What the rest of the game answers when a trade is settled: whether the two may throw things to each
      other, whether each item would fit with the other player and could be taken away, and whether the two
      moves succeed. */
  datatype Settlement = Settlement(reachable: bool, fits1: bool, fits2: bool, removable1: bool, removable2: bool,
    moved1: bool, moved2: bool)

  /** One player's side of a trade. */
  datatype Side = Side(state: TradeState, partner: Player?, item: Item?)

  ghost function SideOf(p: Player): Side
    reads p`tradeState, p`tradePartner, p`tradeItem
  {
    Side(p.tradeState, p.tradePartner, p.tradeItem)
  }

  ghost function Sides(players: set<Player>): (m: map<Player, Side>)
    ensures m.Keys == players
    reads players`tradeState, players`tradePartner, players`tradeItem
  {
    map p | p in players :: SideOf(p)
  }

  lemma SidesShow(players: set<Player>)
    ensures forall p | p in players :: Sides(players)[p] == SideOf(p)
  {
  }

  lemma SidesAre(players: set<Player>, m: map<Player, Side>)
    requires m.Keys == players && forall p | p in players :: SideOf(p) == m[p]
    ensures Sides(players) == m
  {
  }

  const IDLE := Side(NoTrade, null, null)

  /** A side that is in a trade: who starts or answers offers something, who was only asked offers nothing. */
  ghost predicate Trading(s: Side) {
    (s.state == Initiated && s.item != null) || s.state == Accepted || (s.state == Acknowledged && s.item == null)
  }

  /** The two sides of a trade, in every state it can be left in: linked to each other, not both accepted,
      and at least one of them offering something. */
  ghost predicate Paired(p: Player, a: Side, q: Player, b: Side) {
    p != q && a.partner == q && b.partner == p && Trading(a) && Trading(b) &&
    !(a.state == Accepted && b.state == Accepted) && (a.item != null || b.item != null)
  }

  /** Every player is idle or one of a pair. */
  ghost predicate Linked(sides: map<Player, Side>) {
    forall p | p in sides ::
      sides[p] == IDLE || (sides[p].partner != null && sides[p].partner in sides &&
        Paired(p, sides[p], sides[p].partner, sides[sides[p].partner]))
  }

  /** Two players who are linked to no third may become a pair or idle. */
  lemma Relink(sides: map<Player, Side>, p: Player, q: Player, a: Side, b: Side)
    requires Linked(sides) && p in sides && q in sides && p != q
    requires (sides[p] == IDLE || sides[p].partner == q) && (sides[q] == IDLE || sides[q].partner == p)
    requires (a == IDLE && b == IDLE) || Paired(p, a, q, b)
    ensures Linked(sides[p := a][q := b])
  {
    var after := sides[p := a][q := b];
    assert forall r | r in sides && r != p && r != q && sides[r] != IDLE ::
           sides[r].partner != p && sides[r].partner != q;
  }

  lemma LinkedTo(sides: map<Player, Side>, p: Player)
    requires Linked(sides) && p in sides
    ensures sides[p].state == NoTrade <==> sides[p].partner == null
    ensures sides[p].partner == null ==> sides[p] == IDLE
    ensures sides[p].partner != null ==>
              sides[p].partner in sides && sides[p].partner != p && sides[sides[p].partner].partner == p &&
              Paired(p, sides[p], sides[p].partner, sides[sides[p].partner])
    ensures sides[p].state != Transfer && (sides[p].state == Acknowledged ==> sides[p].item == null)
  {
  }

  ghost function Offers(players: set<Player>): (m: map<Player, Item?>)
    ensures m.Keys == players
    reads players`tradeItem
  {
    map p | p in players :: p.tradeItem
  }

  /** What is traded is exactly what is offered, under the owner's id, and nothing is offered twice. */
  ghost predicate Noted(tradeItems: map<Item, nat>, offers: map<Player, Item?>) {
    (forall p | p in offers && offers[p] != null :: offers[p] in tradeItems && tradeItems[offers[p]] == p.id) &&
    (forall p, q | p in offers && q in offers && p != q && offers[p] != null :: offers[p] != offers[q]) &&
    (forall i | i in tradeItems :: exists p | p in offers :: offers[p] == i)
  }

  lemma OfferOne(tradeItems: map<Item, nat>, offers: map<Player, Item?>, p: Player, item: Item)
    requires Noted(tradeItems, offers) && p in offers && offers[p] == null && item !in tradeItems
    ensures Noted(tradeItems[item := p.id], offers[p := item])
  {
    var after: map<Player, Item?> := offers[p := item];
    var traded := tradeItems[item := p.id];
    forall i | i in traded ensures exists q | q in after :: after[q] == i {
      if i == item {
        assert after[p] == i;
      } else {
        var q :| q in offers && offers[q] == i;
        assert after[q] == i;
      }
    }
  }

  lemma DropOne(tradeItems: map<Item, nat>, offers: map<Player, Item?>, p: Player)
    requires Noted(tradeItems, offers) && p in offers && offers[p] != null
    ensures offers[p] in tradeItems && Noted(tradeItems - {offers[p]}, offers[p := null])
  {
    var after: map<Player, Item?> := offers[p := null];
    forall i | i in tradeItems - {offers[p]} ensures exists q | q in after :: after[q] == i {
      var q :| q in offers && offers[q] == i;
      assert after[q] == i;
    }
  }

  // ----- Offers, and the two sides of a trade as they change -----

  ghost function OfferedBy(item: Item?): set<Item> {
    if item == null then {} else {item}
  }

  ghost function Once(item: Item?): seq<Item> {
    if item == null then [] else [item]
  }

  lemma NoItem()
    ensures OfferedBy(null) == {} && Once(null) == []
  {
  }

  /** What the one linked to a player offers. */
  ghost function PartnersItem(sides: map<Player, Side>, p: Player): Item?
    requires p in sides && (sides[p].partner != null ==> sides[p].partner in sides)
  {
    if sides[p].partner == null then null else sides[sides[p].partner].item
  }

  ghost function NoLonger(offers: map<Player, Item?>, p: Player, q: Player): map<Player, Item?>
    requires p in offers && q in offers
  {
    offers[p := null][q := null]
  }

  lemma OffersShow(players: set<Player>)
    ensures forall p | p in players :: Offers(players)[p] == p.tradeItem
  {
  }

  lemma OffersAre(players: set<Player>, m: map<Player, Item?>)
    requires m.Keys == players && forall p | p in players :: p.tradeItem == m[p]
    ensures Offers(players) == m
  {
  }

  /** Neither of two players offers anything any more. */
  lemma BothDropped(tradeItems: map<Item, nat>, offers: map<Player, Item?>, p: Player, q: Player)
    requires Noted(tradeItems, offers) && p in offers && q in offers && p != q
    ensures Noted(tradeItems - OfferedBy(offers[p]) - OfferedBy(offers[q]), NoLonger(offers, p, q))
    ensures (offers[p] != null ==> offers[p] in tradeItems) && (offers[q] != null ==> offers[q] in tradeItems)
    ensures offers[p] != null ==> offers[p] != offers[q]
  {
    hide Noted;
    DropAny(tradeItems, offers, p);
    DropAny(tradeItems - OfferedBy(offers[p]), offers[p := null], q);
    OffersDiffer(tradeItems, offers, p, q);
  }

  lemma OffersDiffer(tradeItems: map<Item, nat>, offers: map<Player, Item?>, p: Player, q: Player)
    requires Noted(tradeItems, offers) && p in offers && q in offers && p != q
    ensures offers[p] != null ==> offers[p] != offers[q]
    ensures offers[q] != null ==> offers[q] in tradeItems
  {
  }

  lemma DropAny(tradeItems: map<Item, nat>, offers: map<Player, Item?>, p: Player)
    requires Noted(tradeItems, offers) && p in offers
    ensures Noted(tradeItems - OfferedBy(offers[p]), offers[p := null])
    ensures offers[p] != null ==> offers[p] in tradeItems
  {
    hide Noted;
    if offers[p] == null {
      assert tradeItems - {} == tradeItems && offers[p := null] == offers;
    } else {
      DropOne(tradeItems, offers, p);
    }
  }

  /** A trade closed: whoever is in it goes idle. */
  ghost function Closed(sides: map<Player, Side>, player: Player): map<Player, Side>
    requires player in sides && (sides[player].partner != null ==> sides[player].partner in sides)
  {
    var q := sides[player].partner;
    if q == null then sides[player := IDLE] else sides[player := IDLE][q := IDLE]
  }

  lemma ClosedIsLinked(sides: map<Player, Side>, player: Player)
    requires Linked(sides) && player in sides && (sides[player].partner != null ==> sides[player].partner in sides)
    ensures Linked(Closed(sides, player))
    ensures var after := Closed(sides, player);
            after.Keys == sides.Keys &&
            forall p | p in sides :: after[p] == if p == player || p == sides[player].partner then IDLE else sides[p]
  {
    hide Linked;
    LinkedTo(sides, player);
    if sides[player].partner == null {
      assert sides[player := IDLE] == sides;
    } else {
      Relink(sides, player, sides[player].partner, IDLE, IDLE);
    }
  }

  /** A trade begun: the one who starts offers, the other is asked unless already in. */
  ghost function Begun(sides: map<Player, Side>, player: Player, tradePartner: Player, tradeItem: Item)
    : map<Player, Side>
    requires player in sides && tradePartner in sides
  {
    sides[player := Side(Initiated, tradePartner, tradeItem)]
         [tradePartner :=
            if sides[tradePartner].state == NoTrade
            then sides[tradePartner].(state := Acknowledged, partner := player)
            else sides[tradePartner]]
  }

  lemma BegunIsPaired(sides: map<Player, Side>, player: Player, tradePartner: Player, tradeItem: Item)
    requires Linked(sides) && player in sides && tradePartner in sides && player != tradePartner
    requires sides[player].state == NoTrade ||
             (sides[player].state == Acknowledged && sides[player].partner == tradePartner)
    requires sides[tradePartner].state == NoTrade || sides[tradePartner].partner == player
    ensures Linked(Begun(sides, player, tradePartner, tradeItem))
    ensures var after := Begun(sides, player, tradePartner, tradeItem);
            Paired(player, after[player], tradePartner, after[tradePartner])
    ensures sides[player].item == null
    ensures var after := Begun(sides, player, tradePartner, tradeItem);
            after.Keys == sides.Keys && after[player] == Side(Initiated, tradePartner, tradeItem) &&
            after[tradePartner] == (if sides[tradePartner].state == NoTrade
                                    then sides[tradePartner].(state := Acknowledged, partner := player)
                                    else sides[tradePartner]) &&
            forall p | p in sides && p != player && p != tradePartner :: after[p] == sides[p]
  {
    hide Linked;
    LinkedTo(sides, player);
    LinkedTo(sides, tradePartner);
    var after := Begun(sides, player, tradePartner, tradeItem);
    Relink(sides, player, tradePartner, after[player], after[tradePartner]);
  }

  /** Whether a player's acceptance counts. */
  ghost predicate Accepts(sides: map<Player, Side>, player: Player, s: Settlement)
    requires player in sides
  {
    (sides[player].state == Acknowledged || sides[player].state == Initiated) && sides[player].partner != null &&
      s.reachable
  }

  /** Whether it is the second one. */
  ghost predicate Settles(sides: map<Player, Side>, player: Player, s: Settlement)
    requires player in sides
  {
    Accepts(sides, player, s) && sides[player].partner in sides && sides[sides[player].partner].state == Accepted
  }

  lemma AcceptedOnce(sides: map<Player, Side>, p: Player)
    requires Linked(sides) && p in sides && sides[p].state in {Acknowledged, Initiated}
    requires sides[p].partner != null ==> sides[p].partner in sides && sides[sides[p].partner].state != Accepted
    ensures Linked(sides[p := sides[p].(state := Accepted)])
  {
    hide Linked;
    LinkedTo(sides, p);
    if sides[p].partner != null {
      var q := sides[p].partner;
      Relink(sides, p, q, sides[p].(state := Accepted), sides[q]);
      assert sides[p := sides[p].(state := Accepted)][q := sides[q]] == sides[p := sides[p].(state := Accepted)];
    }
  }

  ghost function Transferring(sides: map<Player, Side>, p: Player, q: Player): map<Player, Side>
    requires p in sides && q in sides
  {
    sides[p := sides[p].(state := Transfer)][q := sides[q].(state := Transfer)]
  }

  lemma TransferringAt(sides: map<Player, Side>, p: Player, q: Player)
    requires p in sides && q in sides
    ensures Transferring(sides, p, q).Keys == sides.Keys
    ensures forall r | r in sides ::
              Transferring(sides, p, q)[r] == if r == p || r == q then sides[r].(state := Transfer) else sides[r]
  {
  }

  lemma ClosedAt(sides: map<Player, Side>, p: Player)
    requires p in sides && (sides[p].partner != null ==> sides[p].partner in sides)
    ensures Closed(sides, p).Keys == sides.Keys
    ensures forall r | r in sides :: Closed(sides, p)[r] == if r == p || r == sides[p].partner then IDLE else sides[r]
  {
  }

  lemma NoLongerAt(offers: map<Player, Item?>, p: Player, q: Player)
    requires p in offers && q in offers
    ensures NoLonger(offers, p, q).Keys == offers.Keys
    ensures forall r | r in offers :: NoLonger(offers, p, q)[r] == if r == p || r == q then null else offers[r]
  {
  }

  lemma Transferred(players: set<Player>, sides: map<Player, Side>, p: Player, q: Player)
    requires sides.Keys == players && p in players && q in players && Sides(players) == Transferring(sides, p, q) &&
             p != q
    requires sides[p].partner == q && sides[q].partner == p
    ensures p.tradeState == Transfer && q.tradeState == Transfer && p.tradePartner == q && q.tradePartner == p
  {
    SidesShow(players);
  }

  /** What the two sides of a trade offer is traded, and not the same. */
  lemma OfferedAreTraded(tradeItems: map<Item, nat>, players: set<Player>, p: Player)
    requires Linked(Sides(players)) && Noted(tradeItems, Offers(players)) && p in players
    ensures p.tradeItem != null ==> p.tradeItem in tradeItems
    ensures p.tradePartner != null ==>
              p.tradePartner in players &&
              (p.tradePartner.tradeItem != null ==> p.tradePartner.tradeItem in tradeItems) &&
              (p.tradeItem != null ==> p.tradeItem != p.tradePartner.tradeItem)
    ensures p.tradeState != Transfer
  {
    hide Linked, Noted, Sides, Offers;
    SidesShow(players);
    OffersShow(players);
    LinkedTo(Sides(players), p);
    DropAny(tradeItems, Offers(players), p);
    if p.tradePartner != null {
      OffersDiffer(tradeItems, Offers(players), p, p.tradePartner);
    }
  }

  lemma Balance(first: multiset<Item>, middle: multiset<Item>, last: multiset<Item>,
                started: seq<Item>, released: seq<Item>, more: seq<Item>, gone: seq<Item>)
    requires first + multiset(started) == middle + multiset(released) &&
             middle + multiset(more) == last + multiset(gone)
    ensures first + multiset(started + more) == last + multiset(released + gone)
  {
    forall x ensures (first + multiset(started + more))[x] == (last + multiset(released + gone))[x] {
      assert (first + multiset(started))[x] == (middle + multiset(released))[x];
      assert (middle + multiset(more))[x] == (last + multiset(gone))[x];
    }
  }

  lemma OwnersIn(item: Item?, items: set<Item>)
    requires item != null ==> item in items
    ensures OfferedBy(item) <= items
  {
  }

  lemma DropTwo(keys: set<Item>, a: Item?, b: Item?)
    requires (a != null ==> a in keys && a != b) && (b != null ==> b in keys)
    ensures multiset(keys) == multiset(keys - OfferedBy(a) - OfferedBy(b)) + multiset(Once(a) + Once(b))
  {
  }

  // ----- Events -----

  datatype Event =
    | Request(player: Player, tradePartner: Player, tradeItem: Item, related: set<Item>, holdingCount: nat)
    | Accept(player: Player, s: Settlement)
    | Close(player: Player)

  ghost predicate Possible(e: Event, players: set<Player>, items: set<Item>) {
    match e
    case Request(player, tradePartner, tradeItem, _, _) =>
      player in players && tradePartner in players && tradeItem in items
    case Accept(player, _) => player in players
    case Close(player) => player in players
  }

  // ----- What an event makes of the sides and the owners -----

  datatype Snapshot = Snapshot(sides: map<Player, Side>, owners: map<Item, Player?>)

  ghost function Owners(items: set<Item>): (m: map<Item, Player?>)
    ensures m.Keys == items
    reads items`owner
  {
    map i | i in items :: i.owner
  }

  ghost predicate Partnered(sides: map<Player, Side>, p: Player) {
    p in sides && (sides[p].partner != null ==> sides[p].partner in sides)
  }

  /** Whether an acceptance makes things change hands: it is the second, both have offered something, and
      nothing stands in the way. */
  ghost predicate Swaps(sides: map<Player, Side>, player: Player, s: Settlement)
    requires Partnered(sides, player)
  {
    Settles(sides, player, s) && sides[player].item != null && PartnersItem(sides, player) != null &&
    s.fits1 && s.fits2 && s.removable1 && s.removable2 && s.moved1
  }

  ghost function Swapped(owners: map<Item, Player?>, sides: map<Player, Side>, player: Player, s: Settlement)
    : map<Item, Player?>
    requires Partnered(sides, player) && Swaps(sides, player, s)
  {
    var given: map<Item, Player?> := owners[sides[player].item := sides[player].partner];
    if s.moved2 then given[PartnersItem(sides, player) := player] else given
  }

  ghost function AfterAccept(sides: map<Player, Side>, player: Player, s: Settlement): map<Player, Side>
    requires Partnered(sides, player)
  {
    if !Accepts(sides, player, s) then sides
    else if !Settles(sides, player, s) then sides[player := sides[player].(state := Accepted)]
    else Closed(sides, player)
  }

  /** Whether a request starts a trade: two players free for each other, and an item that nobody offers, inside
      or around it neither, with at most a hundred in all. */
  ghost predicate Starts(sides: map<Player, Side>, e: Event)
    requires e.Request? && e.player in sides && e.tradePartner in sides
  {
    e.player != e.tradePartner && e.holdingCount < 100 &&
    (forall p | p in sides && sides[p].item != null :: sides[p].item != e.tradeItem && sides[p].item !in e.related) &&
    (sides[e.player].state == NoTrade ||
     (sides[e.player].state == Acknowledged && sides[e.player].partner == e.tradePartner)) &&
    (sides[e.tradePartner].state == NoTrade || sides[e.tradePartner].partner == e.player)
  }

  lemma NotedMeans(tradeItems: map<Item, nat>, players: set<Player>, item: Item, related: set<Item>)
    requires Noted(tradeItems, Offers(players))
    ensures item !in tradeItems && related !! tradeItems.Keys <==>
            forall p | p in players && Sides(players)[p].item != null ::
              Sides(players)[p].item != item && Sides(players)[p].item !in related
  {
    if item !in tradeItems && related !! tradeItems.Keys {
      forall p | p in players && Sides(players)[p].item != null
        ensures Sides(players)[p].item != item && Sides(players)[p].item !in related
      {
        assert Offers(players)[p] in tradeItems;
      }
    } else {
      var i :| i in tradeItems && (i == item || i in related);
      var p :| p in Offers(players) && Offers(players)[p] == i;
      assert Sides(players)[p].item == i;
    }
  }

  ghost predicate Follows(a: Snapshot, e: Event, b: Snapshot) {
    Partnered(a.sides, e.player) && b.owners.Keys == a.owners.Keys &&
    match e
    case Request(player, tradePartner, tradeItem, _, _) =>
      b.owners == a.owners && tradePartner in a.sides &&
      b.sides == if Starts(a.sides, e) then Begun(a.sides, player, tradePartner, tradeItem) else a.sides
    case Accept(player, s) =>
      b.sides == AfterAccept(a.sides, player, s) &&
      b.owners == if Swaps(a.sides, player, s) then Swapped(a.owners, a.sides, player, s) else a.owners
    case Close(player) =>
      b.owners == a.owners && b.sides == Closed(a.sides, player)
  }

  ghost predicate Trace(trace: seq<Snapshot>, events: seq<Event>) {
    |trace| == |events| + 1 && forall k | 0 <= k < |events| :: Follows(trace[k], events[k], trace[k + 1])
  }

  /** Whether an event swaps an item. */
  ghost predicate SwapsItem(a: Snapshot, e: Event, i: Item) {
    e.Accept? && Partnered(a.sides, e.player) && Swaps(a.sides, e.player, e.s) &&
    (i == a.sides[e.player].item || i == PartnersItem(a.sides, e.player))
  }

  /** An item changes its owner only by a trade in which both have accepted and both have offered something. */
  lemma {:induction false} OnlySwapsChangeOwners(trace: seq<Snapshot>, events: seq<Event>, i: Item)
    requires Trace(trace, events) && i in trace[0].owners
    requires forall k | 0 <= k < |events| :: !SwapsItem(trace[k], events[k], i)
    ensures i in trace[|events|].owners && trace[|events|].owners[i] == trace[0].owners[i]
    decreases |events|
  {
    if events != [] {
      assert Follows(trace[0], events[0], trace[1]) && !SwapsItem(trace[0], events[0], i);
      forall k | 0 <= k < |events[1..]|
        ensures Follows(trace[1..][k], events[1..][k], trace[1..][k + 1])
        ensures !SwapsItem(trace[1..][k], events[1..][k], i)
      {
        assert trace[1..][k] == trace[k + 1] && events[1..][k] == events[k + 1] && trace[1..][k + 1] == trace[k + 2];
      }
      OnlySwapsChangeOwners(trace[1..], events[1..], i);
    }
  }

  lemma RequestFollows(a: Snapshot, e: Event, b: Snapshot)
    requires e.Request? && Partnered(a.sides, e.player) && e.tradePartner in a.sides && b.owners == a.owners
    requires b.sides == if Starts(a.sides, e) then Begun(a.sides, e.player, e.tradePartner, e.tradeItem) else a.sides
    ensures Follows(a, e, b)
  {
  }

  lemma CloseFollows(a: Snapshot, player: Player, b: Snapshot)
    requires Partnered(a.sides, player) && b.owners == a.owners && b.sides == Closed(a.sides, player)
    ensures Follows(a, Close(player), b)
  {
  }

  lemma SettlesAccepts(sides: map<Player, Side>, player: Player, s: Settlement)
    requires player in sides
    ensures Settles(sides, player, s) ==> Accepts(sides, player, s)
  {
  }

  lemma OwnersShow(items: set<Item>)
    ensures forall i | i in items :: Owners(items)[i] == i.owner
  {
  }

  lemma AcceptFollows(sides: map<Player, Side>, owners: map<Item, Player?>, player: Player, s: Settlement, b: Snapshot,
                      isSuccess: bool)
    requires Partnered(sides, player) && b.owners.Keys == owners.Keys
    requires b.sides == AfterAccept(sides, player, s)
    requires isSuccess <==> Swaps(sides, player, s)
    requires var (mine, theirs) := (sides[player].item, PartnersItem(sides, player));
             (mine != null ==>
                mine in owners && mine != theirs &&
                b.owners[mine] == if isSuccess then sides[player].partner else owners[mine]) &&
             (theirs != null ==>
                theirs in owners && b.owners[theirs] == if isSuccess && s.moved2 then player else owners[theirs]) &&
             forall i | i in owners && i != mine && i != theirs :: b.owners[i] == owners[i]
    ensures Follows(Snapshot(sides, owners), Accept(player, s), b)
  {
    hide Accepts, Closed;
    if isSuccess {
      assert b.owners == Swapped(owners, sides, player, s);
    } else {
      assert b.owners == owners;
    }
  }

  lemma TraceShows(trace: seq<Snapshot>, events: seq<Event>)
    ensures Trace(trace, events) ==> |trace| == |events| + 1
    ensures events == [] && |trace| == 1 ==> Trace(trace, events)
  {
  }

  lemma TraceBegun(a: Snapshot, e: Event, trace: seq<Snapshot>, events: seq<Event>)
    requires Trace(trace, events) && Follows(a, e, trace[0])
    ensures Trace([a] + trace, [e] + events)
  {
    forall k | 0 <= k < |events| + 1 ensures Follows(([a] + trace)[k], ([e] + events)[k], ([a] + trace)[k + 1]) {
      if k > 0 {
        assert ([a] + trace)[k] == trace[k - 1] && ([e] + events)[k] == events[k - 1];
      }
    }
  }

  class Game {
    var tradeItems: map<Item, nat>
    var toReleaseThings: seq<Item>

    ghost predicate Valid(players: set<Player>)
      reads this`tradeItems, players`tradeState, players`tradePartner, players`tradeItem
    {
      Linked(Sides(players)) && Noted(tradeItems, Offers(players))
    }

    constructor ()
      ensures tradeItems == map[] && toReleaseThings == []
    {
      tradeItems, toReleaseThings := map[], [];
    }

    /** playerRequestTrade, once the item is at hand. `related` are the items around or inside it. */
    method RequestTrade(player: Player, tradePartner: Player, tradeItem: Item, related: set<Item>, holdingCount: nat,
                        ghost players: set<Player>) returns (ok: bool)
      requires Valid(players) && player in players && tradePartner in players
      modifies this`tradeItems, player`tradeState, player`tradePartner, player`tradeItem, tradePartner`tradeState,
               tradePartner`tradePartner
      ensures Valid(players)
      ensures ok <==> player != tradePartner && tradeItem !in old(tradeItems) && related !! old(tradeItems).Keys &&
                      holdingCount + 1 <= 100 &&
                      old(player.tradeState == NoTrade ||
                          (player.tradeState == Acknowledged && player.tradePartner == tradePartner)) &&
                      old(tradePartner.tradeState == NoTrade || tradePartner.tradePartner == player)
      ensures !ok ==> tradeItems == old(tradeItems) && Sides(players) == old(Sides(players))
      ensures ok ==> tradeItems == old(tradeItems)[tradeItem := player.id] &&
                     Sides(players) == Begun(old(Sides(players)), player, tradePartner, tradeItem)
    {
      hide Linked, Noted, Paired, Sides, Begun;
      if player == tradePartner {
        return false;
      }
      if tradeItem in tradeItems || !(related !! tradeItems.Keys) {
        return false;
      }
      if holdingCount + 1 > 100 {
        return false;
      }
      ok := InternalStartTrade(player, tradePartner, tradeItem, players);
    }

    /** One may start towards another when idle, or when answering that one's offer; the other must be idle or
        linked to the one. */
    ghost predicate MayStart(player: Player, tradePartner: Player)
      reads player, tradePartner
    {
      (player.tradeState == NoTrade || (player.tradeState == Acknowledged && player.tradePartner == tradePartner)) &&
      (tradePartner.tradeState == NoTrade || tradePartner.tradePartner == player)
    }

    method InternalStartTrade(player: Player, tradePartner: Player, tradeItem: Item, ghost players: set<Player>)
      returns (ok: bool)
      requires Valid(players) && player in players && tradePartner in players && player != tradePartner &&
               tradeItem !in tradeItems
      modifies this`tradeItems, player`tradeState, player`tradePartner, player`tradeItem, tradePartner`tradeState,
               tradePartner`tradePartner
      ensures Valid(players) && (ok <==> old(MayStart(player, tradePartner)))
      ensures !ok ==> tradeItems == old(tradeItems) && Sides(players) == old(Sides(players))
      ensures ok ==> tradeItems == old(tradeItems)[tradeItem := player.id] &&
                     Sides(players) == Begun(old(Sides(players)), player, tradePartner, tradeItem)
    {
      hide Noted, Offers, Linked, Paired, Sides, Begun, Closed;
      SidesShow(players);
      ghost var sides := Sides(players);
      LinkedTo(sides, player);
      LinkedTo(sides, tradePartner);
      if player.tradeState != NoTrade && !(player.tradeState == Acknowledged && player.tradePartner == tradePartner) {
        return false;
      } else if tradePartner.tradeState != NoTrade && tradePartner.tradePartner != player {
        return false;
      }
      BegunIsPaired(sides, player, tradePartner, tradeItem);
      Offer(player, tradeItem, players);
      player.SetTrade(Initiated, tradePartner);
      if tradePartner.tradeState == NoTrade {
        tradePartner.SetTrade(Acknowledged, player);
      }
      SidesAre(players, Begun(sides, player, tradePartner, tradeItem));
      return true;
    }

    /** The item is offered by the player and noted as traded. */
    method Offer(player: Player, tradeItem: Item, ghost players: set<Player>)
      requires Noted(tradeItems, Offers(players)) && player in players && player.tradeItem == null &&
               tradeItem !in tradeItems
      modifies this`tradeItems, player`tradeItem
      ensures Noted(tradeItems, Offers(players)) && player.tradeItem == tradeItem
      ensures tradeItems == old(tradeItems)[tradeItem := player.id]
    {
      hide Noted;
      ghost var offers := Offers(players);
      OfferOne(tradeItems, offers, player, tradeItem);
      player.tradeItem := tradeItem;
      tradeItems := tradeItems[tradeItem := player.id];
      assert Offers(players) == offers[player := tradeItem];
    }

    /** What the player offers is taken back and no longer traded; the reference on it is given up. */
    method Withdraw(player: Player, ghost players: set<Player>)
      requires Noted(tradeItems, Offers(players)) && player in players
      modifies this`tradeItems, this`toReleaseThings, player`tradeItem
      ensures Noted(tradeItems, Offers(players)) && player.tradeItem == null
      ensures tradeItems == old(tradeItems) - OfferedBy(old(player.tradeItem))
      ensures toReleaseThings == old(toReleaseThings) + Once(old(player.tradeItem))
    {
      hide Noted;
      if player.tradeItem != null {
        ghost var offers := Offers(players);
        DropOne(tradeItems, offers, player);
        Drop(player.tradeItem);
        player.tradeItem := null;
        ghost var after: map<Player, Item?> := offers[player := null];
        assert Offers(players) == after;
      }
    }

    /** A traded item is no longer traded; the reference taken on it is given up. */
    method Drop(item: Item?)
      modifies this`tradeItems, this`toReleaseThings
      ensures item in old(tradeItems) ==>
                tradeItems == old(tradeItems) - {item} && toReleaseThings == old(toReleaseThings) + [item]
      ensures item !in old(tradeItems) ==> tradeItems == old(tradeItems) && toReleaseThings == old(toReleaseThings)
      ensures item == null || item in old(tradeItems) ==>
                tradeItems == old(tradeItems) - OfferedBy(item) && toReleaseThings == old(toReleaseThings) + Once(item)
    {
      if item != null && item in tradeItems {
        toReleaseThings := toReleaseThings + [item];
        tradeItems := tradeItems - {item};
      }
    }

    /** internalCloseTrade: both sides go idle and what either offered is no longer traded. While things change
        hands nothing happens. */
    method InternalCloseTrade(player: Player, ghost players: set<Player>)
      requires player in players && (player.tradeState != Transfer ==> Valid(players))
      requires player.tradePartner != null ==> player.tradePartner in players
      modifies this`tradeItems, this`toReleaseThings, players`tradeState, players`tradePartner, players`tradeItem
      ensures old(player.tradeState) != Transfer ==>
                Valid(players) && Sides(players) == Closed(old(Sides(players)), player)
      ensures old(player.tradeState) == Transfer ==>
                tradeItems == old(tradeItems) && toReleaseThings == old(toReleaseThings) &&
                Sides(players) == old(Sides(players))
      ensures old(player.tradeState) != Transfer ==>
                tradeItems == old(tradeItems) - OfferedBy(old(player.tradeItem)) -
                              OfferedBy(PartnersItem(old(Sides(players)), player)) &&
                toReleaseThings == old(toReleaseThings) + Once(old(player.tradeItem)) +
                  Once(PartnersItem(old(Sides(players)), player))
    {
      hide Noted, Offers, Linked, Paired, Sides, Begun, Closed;
      SidesShow(players);
      ghost var sides := Sides(players);
      var tradePartner := player.tradePartner;
      if player.tradeState != Transfer {
        LinkedTo(sides, player);
        if tradePartner != null {
          LinkedTo(sides, tradePartner);
        }
      }
      if (tradePartner != null && tradePartner.tradeState == Transfer) || player.tradeState == Transfer {
        return;
      }
      CloseBoth(player, players);
    }

    method CloseBoth(player: Player, ghost players: set<Player>)
      requires player in players && Valid(players) && (player.tradePartner != null ==> player.tradePartner in players)
      modifies this`tradeItems, this`toReleaseThings, players`tradeState, players`tradePartner, players`tradeItem
      ensures Valid(players) && Sides(players) == Closed(old(Sides(players)), player)
      ensures tradeItems == old(tradeItems) - OfferedBy(old(player.tradeItem)) -
                            OfferedBy(PartnersItem(old(Sides(players)), player))
      ensures toReleaseThings == old(toReleaseThings) + Once(old(player.tradeItem)) +
              Once(PartnersItem(old(Sides(players)), player))
    {
      hide Noted, Offers, Linked, Paired, Sides, OfferedBy, Once;
      NoItem();
      SidesShow(players);
      ghost var sides := Sides(players);
      LinkedTo(sides, player);
      ClosedIsLinked(sides, player);
      var tradePartner := player.tradePartner;
      CloseSide(player, players);
      if tradePartner != null {
        assert tradePartner.tradeItem == sides[tradePartner].item;
        CloseSide(tradePartner, players);
      }
    }

    /** One side goes idle. */
    method CloseSide(p: Player, ghost players: set<Player>)
      requires p in players && Noted(tradeItems, Offers(players))
      modifies this`tradeItems, this`toReleaseThings, p`tradeState, p`tradePartner, p`tradeItem
      ensures Noted(tradeItems, Offers(players)) && Sides(players) == old(Sides(players))[p := IDLE]
      ensures tradeItems == old(tradeItems) - OfferedBy(old(p.tradeItem))
      ensures toReleaseThings == old(toReleaseThings) + Once(old(p.tradeItem))
    {
      hide Noted, Offers, Sides;
      SidesShow(players);
      ghost var sides := Sides(players);
      Withdraw(p, players);
      p.SetTrade(NoTrade, null);
      SidesAre(players, sides[p := IDLE]);
    }

    /** What was offered changes hands, if both offered something and it fits; the second move goes unchecked. */
    method Exchange(item1: Item?, item2: Item?, player: Player, tradePartner: Player, s: Settlement)
      returns (isSuccess: bool)
      requires item1 != null ==> item1 != item2
      modifies OfferedBy(item1)`owner, OfferedBy(item2)`owner
      ensures isSuccess <==>
              item1 != null && item2 != null && s.fits1 && s.fits2 && s.removable1 && s.removable2 && s.moved1
      ensures item1 != null ==> item1.owner == if isSuccess then tradePartner else old(item1.owner)
      ensures item2 != null ==> item2.owner == if isSuccess && s.moved2 then player else old(item2.owner)
    {
      isSuccess := false;
      if item1 != null && s.fits1 && item2 != null && s.fits2 {
        if s.removable1 && s.removable2 {
          if s.moved1 {
            item1.owner := tradePartner;
            if s.moved2 {
              item2.owner := player;
            }
            isSuccess := true;
          }
        }
      }
    }

    /** The calls to close the trade while things change hands. */
    method Notify(notified: seq<Player>, ghost players: set<Player>)
      requires forall p | p in notified ::
                 p in players && p.tradeState == Transfer && (p.tradePartner != null ==> p.tradePartner in players)
      modifies this`tradeItems, this`toReleaseThings, players`tradeState, players`tradePartner, players`tradeItem
      ensures tradeItems == old(tradeItems) && toReleaseThings == old(toReleaseThings) &&
              Sides(players) == old(Sides(players))
    {
      hide Sides, Noted, Offers;
      SidesShow(players);
      ghost var sides := Sides(players);
      for n := 0 to |notified|
        invariant tradeItems == old(tradeItems) && toReleaseThings == old(toReleaseThings) && Sides(players) == sides
      {
        SidesShow(players);
        assert SideOf(notified[n]) == sides[notified[n]];
        InternalCloseTrade(notified[n], players);
      }
    }

    /** The second acceptance: the trade is over. */
    method Settle(player: Player, tradePartner: Player, s: Settlement, notified: seq<Player>,
                  ghost players: set<Player>)
      returns (isSuccess: bool)
      requires Valid(players) && player in players && tradePartner in players && player.tradePartner == tradePartner
      requires forall p | p in notified :: p == player || p == tradePartner
      modifies this`tradeItems, this`toReleaseThings, players`tradeState, players`tradePartner, players`tradeItem
      modifies OfferedBy(player.tradeItem)`owner, OfferedBy(tradePartner.tradeItem)`owner
      ensures Valid(players) && Sides(players) == Closed(old(Sides(players)), player)
      ensures tradeItems == old(tradeItems) - OfferedBy(old(player.tradeItem)) - OfferedBy(old(tradePartner.tradeItem))
      ensures toReleaseThings == old(toReleaseThings) + Once(old(player.tradeItem)) + Once(old(tradePartner.tradeItem))
      ensures isSuccess <==> old(player.tradeItem) != null && old(tradePartner.tradeItem) != null &&
                             s.fits1 && s.fits2 && s.removable1 && s.removable2 && s.moved1
      ensures var item1 := old(player.tradeItem);
              item1 != null ==> item1.owner == if isSuccess then tradePartner else old(item1.owner)
      ensures var item2 := old(tradePartner.tradeItem);
              item2 != null ==> item2.owner == if isSuccess && s.moved2 then player else old(item2.owner)
    {
      hide Noted, Offers, Linked, Paired, Closed, Sides, Transferring, NoLonger;
      ghost var sides, offers := Sides(players), Offers(players);
      SidesShow(players);
      OffersShow(players);
      LinkedTo(sides, player);
      ClosedIsLinked(sides, player);
      BothDropped(tradeItems, offers, player, tradePartner);
      var tradeItem1, tradeItem2 := player.tradeItem, tradePartner.tradeItem;
      isSuccess := Carry(player, tradePartner, tradeItem1, tradeItem2, s, notified, players);
      EndTransfer(player, tradePartner, players, sides, offers);
    }

    /** The transfer itself, with what it brings about. */
    method Carry(player: Player, tradePartner: Player, item1: Item?, item2: Item?, s: Settlement, notified: seq<Player>,
                 ghost players: set<Player>) returns (isSuccess: bool)
      requires player in players && tradePartner in players && player != tradePartner
      requires player.tradePartner == tradePartner && tradePartner.tradePartner == player
      requires player.tradeItem == item1 && tradePartner.tradeItem == item2 &&
               (item1 != null ==> item1 in tradeItems && item1 != item2)
      requires item2 != null ==> item2 in tradeItems
      requires forall p | p in notified :: p == player || p == tradePartner
      modifies this`tradeItems, this`toReleaseThings, players`tradeState, players`tradePartner, players`tradeItem
      modifies OfferedBy(item1)`owner, OfferedBy(item2)`owner
      ensures tradeItems == old(tradeItems) - OfferedBy(item1) - OfferedBy(item2)
      ensures toReleaseThings == old(toReleaseThings) + Once(item1) + Once(item2)
      ensures Sides(players) == Transferring(old(Sides(players)), player, tradePartner)
      ensures isSuccess <==>
              item1 != null && item2 != null && s.fits1 && s.fits2 && s.removable1 && s.removable2 && s.moved1
      ensures item1 != null ==> item1.owner == if isSuccess then tradePartner else old(item1.owner)
      ensures item2 != null ==> item2.owner == if isSuccess && s.moved2 then player else old(item2.owner)
    {
      hide Sides, Transferring, Noted, Offers, Linked, OfferedBy;
      ghost var sides := Sides(players);
      SidesShow(players);
      BeginTransfer(player, tradePartner, players);
      Transferred(players, sides, player, tradePartner);
      Notify(notified, players);
      isSuccess := Exchange(item1, item2, player, tradePartner, s);
    }

    method BeginTransfer(player: Player, tradePartner: Player, ghost players: set<Player>)
      requires player in players && tradePartner in players && player != tradePartner
      requires player.tradeItem != null ==> player.tradeItem in tradeItems && player.tradeItem != tradePartner.tradeItem
      requires tradePartner.tradeItem != null ==> tradePartner.tradeItem in tradeItems
      modifies this`tradeItems, this`toReleaseThings, player`tradeState, player`tradePartner, tradePartner`tradeState,
               tradePartner`tradePartner
      ensures tradeItems == old(tradeItems) - OfferedBy(player.tradeItem) - OfferedBy(tradePartner.tradeItem)
      ensures toReleaseThings == old(toReleaseThings) + Once(player.tradeItem) + Once(tradePartner.tradeItem)
      ensures Sides(players) == Transferring(old(Sides(players)), player, tradePartner)
    {
      hide Sides, Transferring, Once;
      SidesShow(players);
      ghost var sides := Sides(players);
      TransferringAt(sides, player, tradePartner);
      player.SetTrade(Transfer, player.tradePartner);
      tradePartner.SetTrade(Transfer, tradePartner.tradePartner);
      Drop(player.tradeItem);
      Drop(tradePartner.tradeItem);
      SidesAre(players, Transferring(sides, player, tradePartner));
    }

    method EndTransfer(player: Player, tradePartner: Player, ghost players: set<Player>, ghost sides: map<Player, Side>,
                       ghost offers: map<Player, Item?>)
      requires player in players && tradePartner in players && player != tradePartner &&
               sides.Keys == offers.Keys == players
      requires sides[player].partner == tradePartner && Sides(players) == Transferring(sides, player, tradePartner)
      requires forall p | p in players :: offers[p] == sides[p].item
      modifies player`tradeState, player`tradePartner, player`tradeItem
      modifies tradePartner`tradeState, tradePartner`tradePartner, tradePartner`tradeItem
      ensures Sides(players) == Closed(sides, player) && Offers(players) == NoLonger(offers, player, tradePartner)
    {
      hide Sides, Offers, Transferring, Closed, NoLonger;
      SidesShow(players);
      TransferringAt(sides, player, tradePartner);
      ClosedAt(sides, player);
      NoLongerAt(offers, player, tradePartner);
      player.SetTrade(NoTrade, null);
      player.tradeItem := null;
      tradePartner.SetTrade(NoTrade, null);
      tradePartner.tradeItem := null;
      SidesAre(players, Closed(sides, player));
      OffersAre(players, NoLonger(offers, player, tradePartner));
    }

    /** playerAcceptTrade. The first to accept waits. When the other already has, the trade is over for both,
        whatever comes of it; things change hands only if both have offered something and nothing stands in
        the way. `notified` are the calls to close the trade that moving the items brings about: they do
        nothing. The outcome of the second move is not looked at. */
    method AcceptTrade(player: Player, s: Settlement, notified: seq<Player>, ghost players: set<Player>)
      returns (isSuccess: bool)
      requires Valid(players) && player in players
      requires forall p | p in notified :: p == player || p == player.tradePartner
      modifies this`tradeItems, this`toReleaseThings, players`tradeState, players`tradePartner, players`tradeItem
      modifies OfferedBy(player.tradeItem)`owner,
               OfferedBy(if player.tradePartner == null then null else player.tradePartner.tradeItem)`owner
      ensures Valid(players)
      ensures var sides := old(Sides(players));
              if !Accepts(sides, player, s) then
                !isSuccess && Sides(players) == sides && tradeItems == old(tradeItems) &&
                toReleaseThings == old(toReleaseThings)
              else if !Settles(sides, player, s) then
                !isSuccess && Sides(players) == sides[player := sides[player].(state := Accepted)] &&
                tradeItems == old(tradeItems) && toReleaseThings == old(toReleaseThings)
              else
                Sides(players) == Closed(sides, player) &&
                tradeItems ==
                  old(tradeItems) - OfferedBy(sides[player].item) - OfferedBy(PartnersItem(sides, player)) &&
                toReleaseThings ==
                  old(toReleaseThings) + Once(sides[player].item) + Once(PartnersItem(sides, player)) &&
                (isSuccess <==> sides[player].item != null && PartnersItem(sides, player) != null &&
                                s.fits1 && s.fits2 && s.removable1 && s.removable2 && s.moved1)
      ensures var sides := old(Sides(players));
              sides[player].item != null ==>
                sides[player].item.owner == if isSuccess then sides[player].partner else old(sides[player].item.owner)
      ensures var sides := old(Sides(players));
              PartnersItem(sides, player) != null ==>
                PartnersItem(sides, player).owner ==
                  if isSuccess && s.moved2 then player else old(PartnersItem(sides, player).owner)
    {
      hide Noted, Offers, Linked, Paired, Closed, Sides;
      isSuccess := false;
      SidesShow(players);
      ghost var sides := Sides(players);
      LinkedTo(sides, player);
      if !(player.tradeState == Acknowledged || player.tradeState == Initiated) {
        return;
      }
      var tradePartner := player.tradePartner;
      if tradePartner == null || !s.reachable {
        return;
      }
      if tradePartner.tradeState != Accepted {
        AcceptedOnce(sides, player);
        player.SetTrade(Accepted, tradePartner);
        SidesAre(players, sides[player := sides[player].(state := Accepted)]);
      } else {
        isSuccess := Settle(player, tradePartner, s, notified, players);
      }
    }

    // ----- Runs -----

    /** References taken and given up against what is traded. */
    method StepRequest(player: Player, tradePartner: Player, tradeItem: Item, related: set<Item>, holdingCount: nat,
                       ghost players: set<Player>) returns (ghost started: seq<Item>)
      requires Valid(players) && player in players && tradePartner in players
      modifies this`tradeItems, players`tradeState, players`tradePartner, players`tradeItem
      ensures Valid(players) && tradeItems.Keys <= old(tradeItems).Keys + {tradeItem}
      ensures var (sides, e) := (old(Sides(players)), Request(player, tradePartner, tradeItem, related, holdingCount));
              Sides(players) == if Starts(sides, e) then Begun(sides, player, tradePartner, tradeItem) else sides
      ensures multiset(old(tradeItems).Keys) + multiset(started) == multiset(tradeItems.Keys)
    {
      hide Noted, Offers, Linked, Paired, Sides, Begun;
      ghost var keys := tradeItems.Keys;
      SidesShow(players);
      NotedMeans(tradeItems, players, tradeItem, related);
      var ok := RequestTrade(player, tradePartner, tradeItem, related, holdingCount, players);
      started := if ok then [tradeItem] else [];
      assert ok ==> tradeItems.Keys == keys + {tradeItem};
    }

    method StepAccept(player: Player, s: Settlement, ghost players: set<Player>, ghost items: set<Item>)
      returns (ghost released: seq<Item>)
      requires Valid(players) && player in players && tradeItems.Keys <= items
      modifies this`tradeItems, this`toReleaseThings, players`tradeState, players`tradePartner, players`tradeItem,
               items`owner
      ensures Valid(players) && tradeItems.Keys <= old(tradeItems).Keys &&
              toReleaseThings == old(toReleaseThings) + released
      ensures multiset(old(tradeItems).Keys) == multiset(tradeItems.Keys) + multiset(released)
      ensures Follows(old(Snapshot(Sides(players), Owners(items))), Accept(player, s),
                      Snapshot(Sides(players), Owners(items)))
    {
      hide Noted, Offers, Linked, Paired, Sides, Closed, Accepts, OfferedBy, Once, Owners, Follows;
      OfferedAreTraded(tradeItems, players, player);
      SidesShow(players);
      ghost var sides, keys, a, b := Sides(players), tradeItems.Keys, player.tradeItem,
        PartnersItem(Sides(players), player);
      DropTwo(keys, a, b);
      AcceptTold(player, s, players, items);
      released := if Settles(sides, player, s) then Once(a) + Once(b) else [];
      assert Settles(sides, player, s) ==> tradeItems.Keys == keys - OfferedBy(a) - OfferedBy(b);
    }

    /** What an acceptance makes of the sides and the owners. */
    method AcceptTold(player: Player, s: Settlement, ghost players: set<Player>, ghost items: set<Item>)
      requires Valid(players) && player in players && tradeItems.Keys <= items
      modifies this`tradeItems, this`toReleaseThings, players`tradeState, players`tradePartner, players`tradeItem,
               items`owner
      ensures Valid(players)
      ensures Partnered(old(Sides(players)), player)
      ensures var sides := old(Sides(players));
              if Settles(sides, player, s) then
                tradeItems ==
                  old(tradeItems) - OfferedBy(sides[player].item) - OfferedBy(PartnersItem(sides, player)) &&
                toReleaseThings ==
                  old(toReleaseThings) + Once(sides[player].item) + Once(PartnersItem(sides, player))
              else tradeItems == old(tradeItems) && toReleaseThings == old(toReleaseThings)
      ensures Follows(old(Snapshot(Sides(players), Owners(items))), Accept(player, s),
                      Snapshot(Sides(players), Owners(items)))
    {
      hide Noted, Offers, Linked, Paired, Sides, Closed, Accepts, Settles, Once, Owners, Follows;
      OfferedAreTraded(tradeItems, players, player);
      OwnersIn(player.tradeItem, items);
      OwnersIn(if player.tradePartner == null then null else player.tradePartner.tradeItem, items);
      SidesShow(players);
      SettlesAccepts(Sides(players), player, s);
      ghost var sides, owners, mine, theirs := Sides(players), Owners(items), player.tradeItem,
        PartnersItem(Sides(players), player);
      OwnersShow(items);
      var isSuccess := AcceptTrade(player, s, [player], players);
      assert forall i | i in items && i != mine && i != theirs :: i.owner == owners[i];
      OwnersShow(items);
      AcceptFollows(sides, owners, player, s, Snapshot(Sides(players), Owners(items)), isSuccess);
    }

    method StepClose(player: Player, ghost players: set<Player>) returns (ghost released: seq<Item>)
      requires Valid(players) && player in players
      modifies this`tradeItems, this`toReleaseThings, players`tradeState, players`tradePartner, players`tradeItem
      ensures Valid(players) && tradeItems.Keys <= old(tradeItems).Keys &&
              toReleaseThings == old(toReleaseThings) + released
      ensures multiset(old(tradeItems).Keys) == multiset(tradeItems.Keys) + multiset(released)
      ensures Partnered(old(Sides(players)), player) && Sides(players) == Closed(old(Sides(players)), player)
    {
      hide Noted, Offers, Linked, Paired, Sides, Closed, OfferedBy, Once;
      OfferedAreTraded(tradeItems, players, player);
      SidesShow(players);
      ghost var keys, a, b := tradeItems.Keys, player.tradeItem, PartnersItem(Sides(players), player);
      DropTwo(keys, a, b);
      InternalCloseTrade(player, players);
      released := Once(a) + Once(b);
      assert tradeItems.Keys == keys - OfferedBy(a) - OfferedBy(b);
    }

    /** One event. */
    method Step(e: Event, ghost players: set<Player>, ghost items: set<Item>)
      returns (ghost started: seq<Item>, ghost released: seq<Item>)
      requires Valid(players) && tradeItems.Keys <= items && Possible(e, players, items)
      modifies this`tradeItems, this`toReleaseThings, players`tradeState, players`tradePartner, players`tradeItem,
               items`owner
      ensures Valid(players) && tradeItems.Keys <= items && toReleaseThings == old(toReleaseThings) + released
      ensures multiset(old(tradeItems).Keys) + multiset(started) == multiset(tradeItems.Keys) + multiset(released)
      ensures Follows(old(Snapshot(Sides(players), Owners(items))), e, Snapshot(Sides(players), Owners(items)))
    {
      hide Noted, Offers, Linked, Sides, Valid, Follows, Owners, Begun, Closed, Partnered, Starts;
      started, released := [], [];
      ghost var before := Snapshot(Sides(players), Owners(items));
      match e
      case Request(player, tradePartner, tradeItem, related, holdingCount) =>
        IsPartnered(player, players);
        started := StepRequest(player, tradePartner, tradeItem, related, holdingCount, players);
        RequestFollows(before, e, Snapshot(Sides(players), Owners(items)));
      case Accept(player, s) =>
        released := StepAccept(player, s, players, items);
      case Close(player) =>
        released := StepClose(player, players);
        CloseFollows(before, player, Snapshot(Sides(players), Owners(items)));
    }

    lemma IsPartnered(p: Player, players: set<Player>)
      requires Valid(players) && p in players
      ensures Partnered(Sides(players), p)
    {
      hide Noted, Offers, Paired;
    }

    /** Over any run of requests, acceptances and closings every player is idle or one of a pair, what is
        traded is what is offered, and each reference taken on an item is given up once or still held. The
        trace tells the sides and the owners before and after each event, as the event makes them. */
    method Run(events: seq<Event>, players: set<Player>, items: set<Item>)
      returns (ghost started: seq<Item>, ghost released: seq<Item>, ghost trace: seq<Snapshot>)
      requires Valid(players) && tradeItems.Keys <= items && forall e | e in events :: Possible(e, players, items)
      modifies this`tradeItems, this`toReleaseThings, players`tradeState, players`tradePartner, players`tradeItem,
               items`owner
      ensures Valid(players) && tradeItems.Keys <= items && toReleaseThings == old(toReleaseThings) + released
      ensures multiset(old(tradeItems).Keys) + multiset(started) == multiset(tradeItems.Keys) + multiset(released)
      ensures Trace(trace, events) && trace[0] == old(Snapshot(Sides(players), Owners(items))) &&
              trace[|events|] == Snapshot(Sides(players), Owners(items))
      decreases |events|
    {
      hide Noted, Offers, Linked, Sides, Valid, Follows, Owners, Possible, Trace;
      started, released := [], [];
      ghost var before := Snapshot(Sides(players), Owners(items));
      trace := [before];
      TraceShows(trace, []);
      if events == [] {
        return;
      }
      assert events[0] in events && forall e | e in events[1..] :: e in events;
      started, released := Step(events[0], players, items);
      ghost var middle := multiset(tradeItems.Keys);
      ghost var more, gone, later := Run(events[1..], players, items);
      Balance(multiset(old(tradeItems).Keys), middle, multiset(tradeItems.Keys), started, released, more, gone);
      started, released := started + more, released + gone;
      TraceShows(later, events[1..]);
      TraceBegun(before, events[0], later, events[1..]);
      assert events == [events[0]] + events[1..];
      trace := [before] + later;
    }
  }
}
