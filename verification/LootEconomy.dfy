/**
  The loot economy: inventories, the auction table and crafting, with the conservation laws that
  hold over every run of drops, listings, purchases, cancellations and crafts.

  The tables users_loot, auction and user_craft are maps from their primary keys. SQLite's 64-bit
  integers are unbounded here.
 */
module LootEconomy {

  import opened Wrappers

  const RARITIES := 9

  type Shades = s: seq<int> | |s| == RARITIES witness [0, 0, 0, 0, 0, 0, 0, 0, 0]

  /** The rarities find_rarity rolls: the first seven of the nine. */
  type Rolled = c: nat | c < 7 witness 0

  datatype Slot = Slot(user: string, loot: int)
  datatype Row = Row(amount: int, shades: Shades)
  datatype Listing = Listing(seller: string, loot: int, amount: int)
  datatype Recipe = Recipe(one: int, two: int, item: int)
  datatype CraftKey = CraftKey(user: string, item: int)
  datatype Crafted = Crafted(amount: int, shade: nat)

  datatype Tables = Tables(
    loot: map<Slot, Row>,
    auction: map<nat, Listing>,
    nextId: nat,
    crafts: map<CraftKey, Crafted>)

  const NO_SHADES: Shades := [0, 0, 0, 0, 0, 0, 0, 0, 0]
  const EMPTY := Tables(map[], map[], 1, map[])

  // --- Drops: the inventory update of find_loot ---

  function Drop(t: Tables, s: Slot, shade: Rolled): Tables {
    if s in t.loot then
      var row := t.loot[s];
      t.(loot := t.loot[s := Row(row.amount + 1, row.shades[shade := row.shades[shade] + 1])])
    else
      t.(loot := t.loot[s := Row(1, NO_SHADES[shade := 1])])
  }

  // --- The auction house ---

  predicate CanList(t: Tables, s: Slot, amount: int) {
    s in t.loot && t.loot[s].amount >= amount
  }

  /** create_listing: the amount asked for is compared with the stock and nothing else, so it may be zero or less. */
  function List(t: Tables, s: Slot, amount: int): Tables {
    if CanList(t, s, amount) then
      t.(loot := t.loot[s := t.loot[s].(amount := t.loot[s].amount - amount)],
      auction := t.auction[t.nextId := Listing(s.user, s.loot, amount)],
      nextId := t.nextId + 1)
    else t
  }

  datatype Reply = Done | NotFound | NotAllowed

  function BuyReply(t: Tables, id: nat, buyer: string): Reply {
    if id !in t.auction then NotFound else if t.auction[id].seller == buyer then NotAllowed else Done
  }

  function Buy(t: Tables, id: nat, buyer: string): Tables {
    if BuyReply(t, id, buyer).Done? then
      var l := t.auction[id];
      var s := Slot(buyer, l.loot);
      var row := if s in t.loot then t.loot[s].(amount := t.loot[s].amount + l.amount) else Row(l.amount, NO_SHADES);
      t.(loot := t.loot[s := row], auction := t.auction - {id})
    else t
  }

  function CancelReply(t: Tables, id: nat, user: string): Reply {
    if id !in t.auction then NotFound else if t.auction[id].seller != user then NotAllowed else Done
  }

  /** An UPDATE of a row that is not there changes nothing. */
  function Cancel(t: Tables, id: nat, user: string): Tables {
    if CancelReply(t, id, user).Done? then
      var l := t.auction[id];
      var s := Slot(user, l.loot);
      t.(loot := if s in t.loot then t.loot[s := t.loot[s].(amount := t.loot[s].amount + l.amount)] else t.loot,
      auction := t.auction - {id})
    else t
  }

  // --- Crafting ---

  datatype CraftReply = NotInteger | BadRarity | Missing | Mismatch | NoRecipe | Made(shade: nat, item: int)

  /** An index into the nine rarity names, counted from the end when negative. */
  function Column(index: int): (c: Option<nat>)
    ensures c.Some? <==> -RARITIES <= index < RARITIES
    ensures c.Some? ==> c.value < RARITIES && (c.value - index) % RARITIES == 0
  {
    if 0 <= index < RARITIES then Some(index)
    else if -RARITIES <= index < 0 then Some(index + RARITIES)
    else None
  }

  predicate Fits(r: Recipe, one: int, two: int) {
    (r.one == one && r.two == two) || (r.one == two && r.two == one)
  }

  /** The first recipe for the two items in either order. */
  function FindRecipe(recipes: seq<Recipe>, one: int, two: int): (r: Option<Recipe>)
    ensures r.Some? ==> r.value in recipes && Fits(r.value, one, two)
    ensures r.None? ==> forall q :: q in recipes ==> !Fits(q, one, two)
  {
    if |recipes| == 0 then None
    else if Fits(recipes[0], one, two) then Some(recipes[0])
    else FindRecipe(recipes[1..], one, two)
  }

  lemma {:induction false} RecipeOrderFree(recipes: seq<Recipe>, one: int, two: int)
    ensures FindRecipe(recipes, one, two) == FindRecipe(recipes, two, one)
  {
    if |recipes| > 0 {
      RecipeOrderFree(recipes[1..], one, two);
    }
  }

  predicate Has(t: Tables, s: Slot, shade: nat)
    requires shade < RARITIES
  {
    s in t.loot && t.loot[s].shades[shade] > 0
  }

  function CraftOutcome(t: Tables, recipes: seq<Recipe>, user: string, one: int, r1: int, two: int, r2: int): (r: CraftReply)
    ensures r.Made? ==> r.shade < RARITIES && Has(t, Slot(user, one), r.shade) && Has(t, Slot(user, two), r.shade)
  {
    if Column(r1).None? || Column(r2).None? then BadRarity
    else
      var c1, c2 := Column(r1).value, Column(r2).value;
      if !Has(t, Slot(user, one), c1) || !Has(t, Slot(user, two), c2) then Missing
      else if c1 != c2 then Mismatch
      else
        match FindRecipe(recipes, one, two)
        case None => NoRecipe
        case Some(recipe) => Made(c1, recipe.item)
  }

  function Consume(loot: map<Slot, Row>, s: Slot, shade: nat): map<Slot, Row>
    requires s in loot && shade < RARITIES
  {
    var row := loot[s];
    loot[s := Row(row.amount - 1, row.shades[shade := row.shades[shade] - 1])]
  }

  function Credit(crafts: map<CraftKey, Crafted>, k: CraftKey, shade: nat): map<CraftKey, Crafted> {
    if k in crafts then crafts[k := crafts[k].(amount := crafts[k].amount + 1)]
    else crafts[k := Crafted(1, shade)]
  }

  function Craft(t: Tables, recipes: seq<Recipe>, user: string, one: int, r1: int, two: int, r2: int): Tables {
    match CraftOutcome(t, recipes, user, one, r1, two, r2)
    case Made(shade, item) =>
      t.(crafts := Credit(t.crafts, CraftKey(user, item), shade),
      loot := Consume(Consume(t.loot, Slot(user, one), shade), Slot(user, two), shade))
    case _ => t
  }

  // --- Runs ---

  datatype Event =
    | Dropping(slot: Slot, shade: Rolled)
    | Offering(slot: Slot, amount: int)
    | Buying(id: nat, user: string)
    | Cancelling(id: nat, user: string)
    | Crafting(user: string, one: int, r1: int, two: int, r2: int)

  function Step(t: Tables, recipes: seq<Recipe>, e: Event): Tables {
    match e
    case Dropping(s, shade) => Drop(t, s, shade)
    case Offering(s, amount) => List(t, s, amount)
    case Buying(id, user) => Buy(t, id, user)
    case Cancelling(id, user) => Cancel(t, id, user)
    case Crafting(user, one, r1, two, r2) => Craft(t, recipes, user, one, r1, two, r2)
  }

  function Run(recipes: seq<Recipe>, events: seq<Event>): Tables {
    if |events| == 0 then EMPTY
    else Step(Run(recipes, events[..|events| - 1]), recipes, events[|events| - 1])
  }

  // --- Sums over tables ---

  ghost function Sum<K>(m: map<K, int>): int
    decreases |m|
  {
    if m == map[] then 0
    else
      var k :| k in m;
      m[k] + Sum(m - {k})
  }

  lemma {:induction false} SumWithout<K>(m: map<K, int>, k: K)
    requires k in m
    ensures Sum(m) == m[k] + Sum(m - {k})
    decreases |m|
  {
    var j :| j in m && Sum(m) == m[j] + Sum(m - {j});
    if j != k {
      SumWithout(m - {j}, k);
      SumWithout(m - {k}, j);
      assert m - {j} - {k} == m - {k} - {j};
    }
  }

  function At<K>(m: map<K, int>, k: K): int {
    if k in m then m[k] else 0
  }

  lemma SumUpdate<K>(m: map<K, int>, k: K, v: int)
    ensures Sum(m[k := v]) == Sum(m) - At(m, k) + v
  {
    SumWithout(m[k := v], k);
    if k in m {
      SumWithout(m, k);
      assert m[k := v] - {k} == m - {k};
    } else {
      assert m[k := v] - {k} == m;
    }
  }

  function Added(s: seq<int>): int {
    if |s| == 0 then 0 else Added(s[..|s| - 1]) + s[|s| - 1]
  }

  lemma {:induction false} AddedUpdate(s: seq<int>, i: nat, v: int)
    requires i < |s|
    ensures Added(s[i := v]) == Added(s) - s[i] + v
  {
    if i < |s| - 1 {
      AddedUpdate(s[..|s| - 1], i, v);
      assert s[i := v][..|s| - 1] == s[..|s| - 1][i := v];
    } else {
      assert s[i := v][..|s| - 1] == s[..|s| - 1];
    }
  }

  lemma NothingAdded(shade: nat)
    requires shade < RARITIES
    ensures Added(NO_SHADES) == 0 && Added(NO_SHADES[shade := 1]) == 1
  {
    ZerosAdded(NO_SHADES);
    AddedUpdate(NO_SHADES, shade, 1);
  }

  lemma {:induction false} ZerosAdded(s: seq<int>)
    requires forall i :: 0 <= i < |s| ==> s[i] == 0
    ensures Added(s) == 0
  {
    if |s| > 0 {
      ZerosAdded(s[..|s| - 1]);
    }
  }

  // --- Conservation ---

  function AmountOf(row: Row): int { row.amount }
  function ShadesOf(row: Row): int { Added(row.shades) }

  function Measures(loot: map<Slot, Row>, id: int, f: Row -> int): map<Slot, int> {
    map s | s in loot && s.loot == id :: f(loot[s])
  }

  /** The sum of f over all rows of the loot id. */
  ghost function Measure(loot: map<Slot, Row>, id: int, f: Row -> int): int {
    Sum(Measures(loot, id, f))
  }

  function Offers(auction: map<nat, Listing>, id: int): map<nat, int> {
    map a | a in auction && auction[a].loot == id :: auction[a].amount
  }

  ghost function Listed(auction: map<nat, Listing>, id: int): int {
    Sum(Offers(auction, id))
  }

  /** Everything of one loot id: what the players hold and what is up for sale. */
  ghost function Total(t: Tables, id: int): int {
    Measure(t.loot, id, AmountOf) + Listed(t.auction, id)
  }

  ghost function Shaded(t: Tables, id: int): int {
    Measure(t.loot, id, ShadesOf)
  }

  function One(b: bool): int { if b then 1 else 0 }

  /** What one event adds to the loot id: one for a drop, minus one for each input of a craft that succeeds. */
  function Gain(t: Tables, recipes: seq<Recipe>, e: Event, id: int): int {
    match e
    case Dropping(s, _) => One(s.loot == id)
    case Crafting(user, one, r1, two, r2) =>
      if CraftOutcome(t, recipes, user, one, r1, two, r2).Made? then -One(one == id) - One(two == id) else 0
    case _ => 0
  }

  function Gained(recipes: seq<Recipe>, events: seq<Event>, id: int): int {
    if |events| == 0 then 0
    else
      var before := events[..|events| - 1];
      Gained(recipes, before, id) + Gain(Run(recipes, before), recipes, events[|events| - 1], id)
  }

  function Worth(loot: map<Slot, Row>, s: Slot, f: Row -> int): int {
    if s in loot then f(loot[s]) else 0
  }

  lemma MeasureUpdate(loot: map<Slot, Row>, s: Slot, row: Row, id: int, f: Row -> int)
    ensures Measure(loot[s := row], id, f) ==
            Measure(loot, id, f) + if s.loot == id then f(row) - Worth(loot, s, f) else 0
  {
    if s.loot == id {
      SumUpdate(Measures(loot, id, f), s, f(row));
      assert Measures(loot[s := row], id, f) == Measures(loot, id, f)[s := f(row)];
    } else {
      assert Measures(loot[s := row], id, f) == Measures(loot, id, f);
    }
  }

  lemma ListedMore(auction: map<nat, Listing>, a: nat, l: Listing, id: int)
    requires a !in auction
    ensures Listed(auction[a := l], id) == Listed(auction, id) + if l.loot == id then l.amount else 0
  {
    if l.loot == id {
      SumUpdate(Offers(auction, id), a, l.amount);
      assert Offers(auction[a := l], id) == Offers(auction, id)[a := l.amount];
    } else {
      assert Offers(auction[a := l], id) == Offers(auction, id);
    }
  }

  lemma ListedLess(auction: map<nat, Listing>, a: nat, id: int)
    requires a in auction
    ensures Listed(auction - {a}, id) == Listed(auction, id) - if auction[a].loot == id then auction[a].amount else 0
  {
    ListedMore(auction - {a}, a, auction[a], id);
    assert (auction - {a})[a := auction[a]] == auction;
  }

  /** Every seller has an inventory row for what is listed, and listing ids are not used twice. */
  ghost predicate Inv(t: Tables) {
    forall a :: a in t.auction ==> a < t.nextId && Slot(t.auction[a].seller, t.auction[a].loot) in t.loot
  }

  lemma StepKeepsInv(t: Tables, recipes: seq<Recipe>, e: Event)
    requires Inv(t)
    ensures Inv(Step(t, recipes, e))
  {}

  lemma DropGains(t: Tables, s: Slot, shade: Rolled, id: int)
    ensures Total(Drop(t, s, shade), id) == Total(t, id) + One(s.loot == id)
    ensures Shaded(Drop(t, s, shade), id) == Shaded(t, id) + One(s.loot == id)
  {
    hide Measure, Listed, Added;
    var row := Drop(t, s, shade).loot[s];
    MeasureUpdate(t.loot, s, row, id, AmountOf);
    MeasureUpdate(t.loot, s, row, id, ShadesOf);
    if s in t.loot {
      AddedUpdate(t.loot[s].shades, shade, t.loot[s].shades[shade] + 1);
    } else {
      NothingAdded(shade);
    }
  }

  lemma ListConserves(t: Tables, s: Slot, amount: int, id: int)
    requires Inv(t)
    ensures Total(List(t, s, amount), id) == Total(t, id) && Shaded(List(t, s, amount), id) == Shaded(t, id)
  {
    hide Measure, Listed, Added;
    if CanList(t, s, amount) {
      var row := t.loot[s].(amount := t.loot[s].amount - amount);
      MeasureUpdate(t.loot, s, row, id, AmountOf);
      MeasureUpdate(t.loot, s, row, id, ShadesOf);
      ListedMore(t.auction, t.nextId, Listing(s.user, s.loot, amount), id);
    }
  }

  lemma BuyConserves(t: Tables, a: nat, buyer: string, id: int)
    ensures Total(Buy(t, a, buyer), id) == Total(t, id) && Shaded(Buy(t, a, buyer), id) == Shaded(t, id)
  {
    hide Measure, Listed, Added;
    if BuyReply(t, a, buyer).Done? {
      var s := Slot(buyer, t.auction[a].loot);
      var row := Buy(t, a, buyer).loot[s];
      MeasureUpdate(t.loot, s, row, id, AmountOf);
      MeasureUpdate(t.loot, s, row, id, ShadesOf);
      ListedLess(t.auction, a, id);
      NothingAdded(0);
    }
  }

  /** In any tables at all, a cancellation loses the listed loot exactly when the seller has no row to return it to. */
  lemma CancelConservesIff(t: Tables, a: nat, user: string)
    requires CancelReply(t, a, user).Done?
    ensures (forall id :: Total(Cancel(t, a, user), id) == Total(t, id)) <==>
            Slot(user, t.auction[a].loot) in t.loot || t.auction[a].amount == 0
    ensures forall id :: Shaded(Cancel(t, a, user), id) == Shaded(t, id)
  {
    hide Total, Shaded;
    forall id
      ensures Total(Cancel(t, a, user), id) == Total(t, id) -
              if Slot(user, t.auction[a].loot) !in t.loot && t.auction[a].loot == id then t.auction[a].amount else 0
      ensures Shaded(Cancel(t, a, user), id) == Shaded(t, id)
    {
      CancelTotals(t, a, user, id);
    }
    assert Total(Cancel(t, a, user), t.auction[a].loot) == Total(t, t.auction[a].loot) -
           if Slot(user, t.auction[a].loot) !in t.loot then t.auction[a].amount else 0;
  }

  lemma CancelTotals(t: Tables, a: nat, user: string, id: int)
    requires CancelReply(t, a, user).Done?
    ensures Total(Cancel(t, a, user), id) == Total(t, id) -
            if Slot(user, t.auction[a].loot) !in t.loot && t.auction[a].loot == id then t.auction[a].amount else 0
    ensures Shaded(Cancel(t, a, user), id) == Shaded(t, id)
  {
    hide Measure, Listed, Added;
    var s := Slot(user, t.auction[a].loot);
    ListedLess(t.auction, a, id);
    if s in t.loot {
      var row := Cancel(t, a, user).loot[s];
      MeasureUpdate(t.loot, s, row, id, AmountOf);
      MeasureUpdate(t.loot, s, row, id, ShadesOf);
    }
  }

  lemma ConsumeLoses(loot: map<Slot, Row>, s: Slot, shade: nat, id: int)
    requires s in loot && shade < RARITIES
    ensures Measure(Consume(loot, s, shade), id, AmountOf) == Measure(loot, id, AmountOf) - One(s.loot == id)
    ensures Measure(Consume(loot, s, shade), id, ShadesOf) == Measure(loot, id, ShadesOf) - One(s.loot == id)
  {
    hide Measure, Added;
    var row := Consume(loot, s, shade)[s];
    MeasureUpdate(loot, s, row, id, AmountOf);
    MeasureUpdate(loot, s, row, id, ShadesOf);
    AddedUpdate(loot[s].shades, shade, loot[s].shades[shade] - 1);
  }

  lemma StepGains(t: Tables, recipes: seq<Recipe>, e: Event, id: int)
    requires Inv(t)
    ensures Total(Step(t, recipes, e), id) == Total(t, id) + Gain(t, recipes, e, id)
    ensures Shaded(Step(t, recipes, e), id) == Shaded(t, id) + Gain(t, recipes, e, id)
  {
    hide Measure, Listed, Added, CraftOutcome, FindRecipe;
    match e
    case Dropping(s, shade) => DropGains(t, s, shade, id);
    case Offering(s, amount) => ListConserves(t, s, amount, id);
    case Buying(a, user) => BuyConserves(t, a, user, id);
    case Cancelling(a, user) => if CancelReply(t, a, user).Done? { CancelTotals(t, a, user, id); }
    case Crafting(user, one, r1, two, r2) =>
      var outcome := CraftOutcome(t, recipes, user, one, r1, two, r2);
      if outcome.Made? {
        ConsumeLoses(t.loot, Slot(user, one), outcome.shade, id);
        ConsumeLoses(Consume(t.loot, Slot(user, one), outcome.shade), Slot(user, two), outcome.shade, id);
      }
  }

  lemma {:induction false} RunInv(recipes: seq<Recipe>, events: seq<Event>)
    ensures Inv(Run(recipes, events))
  {
    hide Step;
    if |events| == 0 {
    } else {
      RunInv(recipes, events[..|events| - 1]);
      StepKeepsInv(Run(recipes, events[..|events| - 1]), recipes, events[|events| - 1]);
    }
  }

  /**
    Conservation. After any run, what is held and listed of a loot id is one for each drop of it less
    one for each craft input of it, and so is the sum of the nine rarity columns over all players.
   */
  lemma {:induction false} Conservation(recipes: seq<Recipe>, events: seq<Event>, id: int)
    ensures Total(Run(recipes, events), id) == Gained(recipes, events, id)
    ensures Shaded(Run(recipes, events), id) == Gained(recipes, events, id)
  {
    hide Step, Gain, Inv;
    if |events| == 0 {
      assert Measures(map[], id, AmountOf) == map[] && Measures(map[], id, ShadesOf) == map[];
      assert Offers(map[], id) == map[];
    } else {
      hide Total, Shaded;
      var before := events[..|events| - 1];
      Conservation(recipes, before, id);
      RunInv(recipes, before);
      StepGains(Run(recipes, before), recipes, events[|events| - 1], id);
    }
  }

  // --- Rarity columns ---

  ghost predicate Balanced(t: Tables) {
    forall s :: s in t.loot ==> t.loot[s].amount == Added(t.loot[s].shades)
  }

  lemma DropBalanced(t: Tables, s: Slot, shade: Rolled)
    requires Balanced(t)
    ensures Balanced(Drop(t, s, shade))
  {
    hide Added;
    NothingAdded(shade);
    if s in t.loot {
      AddedUpdate(t.loot[s].shades, shade, t.loot[s].shades[shade] + 1);
    }
  }

  lemma ConsumeBalanced(t: Tables, s: Slot, shade: nat)
    requires Balanced(t) && s in t.loot && shade < RARITIES
    ensures Balanced(t.(loot := Consume(t.loot, s, shade)))
  {
    hide Added;
    AddedUpdate(t.loot[s].shades, shade, t.loot[s].shades[shade] - 1);
  }

  lemma EmptyBalanced()
    ensures Balanced(EMPTY)
  {}

  lemma BalancedStep(t: Tables, recipes: seq<Recipe>, e: Event)
    requires Balanced(t) && (e.Dropping? || e.Crafting?)
    ensures Balanced(Step(t, recipes, e))
  {
    hide Balanced, CraftOutcome, Drop, Credit, Consume;
    match e
    case Dropping(s, shade) => DropBalanced(t, s, shade);
    case Crafting(user, one, r1, two, r2) =>
      var outcome := CraftOutcome(t, recipes, user, one, r1, two, r2);
      if outcome.Made? {
        var t1 := t.(crafts := Credit(t.crafts, CraftKey(user, outcome.item), outcome.shade));
        SameRows(t, t1);
        ConsumeBalanced(t1, Slot(user, one), outcome.shade);
        ConsumeKeepsRows(t.loot, Slot(user, one), outcome.shade);
        ConsumeBalanced(t1.(loot := Consume(t.loot, Slot(user, one), outcome.shade)), Slot(user, two), outcome.shade);
      }
  }

  lemma SameRows(t: Tables, u: Tables)
    requires Balanced(t) && t.loot == u.loot
    ensures Balanced(u)
  {}

  lemma ConsumeKeepsRows(loot: map<Slot, Row>, s: Slot, shade: nat)
    requires s in loot && shade < RARITIES
    ensures Consume(loot, s, shade).Keys == loot.Keys
  {}

  /** Over drops and crafts alone, every row's amount is the sum of its nine rarity columns. */
  lemma {:induction false} DropsAndCraftsBalance(recipes: seq<Recipe>, events: seq<Event>)
    requires forall e :: e in events ==> e.Dropping? || e.Crafting?
    ensures Balanced(Run(recipes, events))
  {
    hide Balanced, Step;
    if |events| == 0 {
      EmptyBalanced();
    } else {
      DropsAndCraftsBalance(recipes, events[..|events| - 1]);
      BalancedStep(Run(recipes, events[..|events| - 1]), recipes, events[|events| - 1]);
    }
  }

  ghost predicate AtLeast(loot: map<Slot, Row>, floor: int) {
    forall s, c :: s in loot && 0 <= c < RARITIES ==> loot[s].shades[c] >= floor
  }

  lemma StepFloor(t: Tables, recipes: seq<Recipe>, e: Event)
    requires AtLeast(t.loot, -1)
    ensures AtLeast(Step(t, recipes, e).loot, -1)
  {
    hide CraftOutcome, Column, FindRecipe;
    if e.Crafting? {
      var outcome := CraftOutcome(t, recipes, e.user, e.one, e.r1, e.two, e.r2);
      if outcome.Made? {
        TwiceConsumed(t.loot, Slot(e.user, e.one), Slot(e.user, e.two), outcome.shade);
      }
    }
  }

  lemma TwiceConsumed(loot: map<Slot, Row>, s: Slot, u: Slot, shade: nat)
    requires s in loot && u in loot && shade < RARITIES
    ensures Consume(loot, s, shade).Keys == loot.Keys
    ensures var after := Consume(Consume(loot, s, shade), u, shade);
            && after.Keys == loot.Keys
            && forall v, c :: v in loot && 0 <= c < RARITIES ==>
                 after[v].shades[c] == loot[v].shades[c] - if c == shade then One(v == s) + One(v == u) else 0
  {}

  /** No rarity column ever falls below minus one, although one item may serve as both inputs of a craft. */
  lemma {:induction false} ShadesFloor(recipes: seq<Recipe>, events: seq<Event>)
    ensures AtLeast(Run(recipes, events).loot, -1)
  {
    hide Step;
    if |events| == 0 {
    } else {
      ShadesFloor(recipes, events[..|events| - 1]);
      StepFloor(Run(recipes, events[..|events| - 1]), recipes, events[|events| - 1]);
    }
  }

  /** A craft overdraws a rarity column exactly when its last item of that rarity is used as both inputs. */
  lemma CraftOverdrawsIff(t: Tables, recipes: seq<Recipe>, user: string, one: int, r1: int, two: int, r2: int)
    requires AtLeast(t.loot, 0) && CraftOutcome(t, recipes, user, one, r1, two, r2).Made?
    ensures !AtLeast(Craft(t, recipes, user, one, r1, two, r2).loot, 0) <==>
            one == two && t.loot[Slot(user, one)].shades[Column(r1).value] == 1
  {
    var shade := CraftOutcome(t, recipes, user, one, r1, two, r2).shade;
    hide CraftOutcome, Column, FindRecipe, Consume;
    var s := Slot(user, one);
    var after := Craft(t, recipes, user, one, r1, two, r2).loot;
    TwiceConsumed(t.loot, s, Slot(user, two), shade);
    if one == two && t.loot[s].shades[shade] == 1 {
      assert after[s].shades[shade] == -1;
    }
  }

  /** A recipe of an item with itself, one drop and one craft: the column is at minus one, the floor of the lemma above. */
  lemma FloorReached(user: string, item: int, made: int)
    ensures
      var recipes, s := [Recipe(item, item, made)], Slot(user, item);
      var loot := Run(recipes, [Dropping(s, 0), Crafting(user, item, 0, item, 0)]).loot;
      s in loot && loot[s].shades[0] == -1 && loot[s].amount == -1
  {
    var recipes, s := [Recipe(item, item, made)], Slot(user, item);
    var drop, craft := Dropping(s, 0), Crafting(user, item, 0, item, 0);
    RunNext(recipes, [], drop);
    RunNext(recipes, [drop], craft);
    assert [] + [drop] == [drop] && [drop] + [craft] == [drop, craft];
    var t := Drop(EMPTY, s, 0);
    assert t.loot[s] == Row(1, NO_SHADES[0 := 1]);
    assert Has(t, s, 0);
    assert FindRecipe(recipes, item, item) == Some(recipes[0]);
    TwiceConsumed(t.loot, s, s, 0);
  }

  lemma RunNext(recipes: seq<Recipe>, events: seq<Event>, e: Event)
    ensures Run(recipes, events + [e]) == Step(Run(recipes, events), recipes, e)
  {
    hide Step;
    assert (events + [e])[..|events|] == events;
  }

  // --- What crafting pays ---

  function Makes(t: Tables, recipes: seq<Recipe>, e: Event, k: CraftKey): int {
    if e.Crafting? && e.user == k.user then
      var outcome := CraftOutcome(t, recipes, e.user, e.one, e.r1, e.two, e.r2);
      One(outcome.Made? && outcome.item == k.item)
    else 0
  }

  function MadeIn(recipes: seq<Recipe>, events: seq<Event>, k: CraftKey): int {
    if |events| == 0 then 0
    else
      var before := events[..|events| - 1];
      MadeIn(recipes, before, k) + Makes(Run(recipes, before), recipes, events[|events| - 1], k)
  }

  function Owned(crafts: map<CraftKey, Crafted>, k: CraftKey): int {
    if k in crafts then crafts[k].amount else 0
  }

  /** After any run a player owns as many of a crafted item as crafts of it succeeded. */
  lemma {:induction false} CraftsCounted(recipes: seq<Recipe>, events: seq<Event>, k: CraftKey)
    ensures Owned(Run(recipes, events).crafts, k) == MadeIn(recipes, events, k)
  {
    hide CraftOutcome;
    if |events| == 0 {
    } else {
      CraftsCounted(recipes, events[..|events| - 1], k);
    }
  }

  // --- What single operations are for ---

  /** A listing is made exactly within the stock: what is asked for was held, and what is left is not negative. */
  lemma ListedWithinStock(t: Tables, s: Slot, amount: int)
    requires Inv(t)
    ensures
      var t' := List(t, s, amount);
      && (t'.nextId == t.nextId ==> t' == t)
      && (t'.nextId != t.nextId ==>
            && s in t.loot && 0 <= t.loot[s].amount - amount
            && t'.loot == t.loot[s := t.loot[s].(amount := t.loot[s].amount - amount)] && t'.crafts == t.crafts
            && t'.nextId == t.nextId + 1 && t.nextId !in t.auction
            && t'.auction == t.auction[t.nextId := Listing(s.user, s.loot, amount)])
      && (t'.nextId != t.nextId <==> s in t.loot && amount <= t.loot[s].amount)
  {}

  /** A drop raises the amount and the column of its own rarity by one, and no other. */
  lemma DropRaises(t: Tables, s: Slot, shade: Rolled, other: Slot, c: nat)
    requires c < 9
    ensures
      var t' := Drop(t, s, shade);
      && s in t'.loot
      && t'.loot[s].amount == 1 + (if s in t.loot then t.loot[s].amount else 0)
      && t'.loot[s].shades[c] == (if c == shade then 1 else 0) + (if s in t.loot then t.loot[s].shades[c] else 0)
      && (other != s && other in t.loot ==> other in t'.loot && t'.loot[other] == t.loot[other])
      && t' == t.(loot := t'.loot)
  {}

  /** A purchase hands the listed loot to the buyer, who is not the seller, and no rarities with it. */
  lemma BuyHandsOver(t: Tables, id: nat, buyer: string)
    ensures BuyReply(t, id, buyer) == NotFound <==> id !in t.auction
    ensures BuyReply(t, id, buyer) == NotAllowed <==> id in t.auction && t.auction[id].seller == buyer
    ensures BuyReply(t, id, buyer) != Done ==> Buy(t, id, buyer) == t
    ensures BuyReply(t, id, buyer) == Done ==>
      var t', s := Buy(t, id, buyer), Slot(buyer, t.auction[id].loot);
      && id !in t'.auction && s in t'.loot
      && t'.loot[s].amount == t.auction[id].amount + (if s in t.loot then t.loot[s].amount else 0)
      && t'.loot[s].shades == (if s in t.loot then t.loot[s].shades else [0, 0, 0, 0, 0, 0, 0, 0, 0])
      && t' == t.(auction := t.auction - {id}, loot := t.loot[s := t'.loot[s]])
  {}

  /** A cancellation hands the listed loot back to its seller, who alone may ask for it. */
  lemma CancelHandsBack(t: Tables, id: nat, user: string)
    requires Inv(t)
    ensures CancelReply(t, id, user) == NotFound <==> id !in t.auction
    ensures CancelReply(t, id, user) == NotAllowed <==> id in t.auction && t.auction[id].seller != user
    ensures CancelReply(t, id, user) != Done ==> Cancel(t, id, user) == t
    ensures CancelReply(t, id, user) == Done ==>
      var t', s := Cancel(t, id, user), Slot(user, t.auction[id].loot);
      && id !in t'.auction && s in t.loot && s in t'.loot
      && t'.loot[s] == t.loot[s].(amount := t.loot[s].amount + t.auction[id].amount)
      && t' == t.(auction := t.auction - {id}, loot := t.loot[s := t'.loot[s]])
  {}

  /** What the player holds of an item in a rarity column. */
  function Holding(t: Tables, user: string, item: int, c: nat): int
    requires c < 9
  {
    if Slot(user, item) in t.loot then t.loot[Slot(user, item)].shades[c] else 0
  }

  function ColumnOf(index: int): nat
    requires -9 <= index < 9
  {
    if index >= 0 then index else index + 9
  }

  /** The two items are the inputs of the recipe, each used once. */
  predicate TakesBoth(r: Recipe, one: int, two: int) {
    multiset{r.one, r.two} == multiset{one, two}
  }

  lemma FitsIsTakesBoth(r: Recipe, one: int, two: int)
    ensures Fits(r, one, two) <==> TakesBoth(r, one, two)
  {
    if TakesBoth(r, one, two) {
      assert r.one in multiset{one, two} && r.two in multiset{one, two};
      assert one in multiset{r.one, r.two} && two in multiset{r.one, r.two};
    }
  }

  /** Why a craft is refused, first reason first, and what one that is not makes. */
  lemma CraftRepliesExactly(t: Tables, recipes: seq<Recipe>, user: string, one: int, r1: int, two: int, r2: int)
    ensures
      var reply := CraftOutcome(t, recipes, user, one, r1, two, r2);
      if !(-9 <= r1 < 9 && -9 <= r2 < 9) then reply == BadRarity
      else if Holding(t, user, one, ColumnOf(r1)) < 1 || Holding(t, user, two, ColumnOf(r2)) < 1 then reply == Missing
      else if (r1 - r2) % 9 != 0 then reply == Mismatch
      else if forall r :: r in recipes ==> !TakesBoth(r, one, two) then reply == NoRecipe
      else reply.Made? && reply.shade == ColumnOf(r1) && exists r :: r in recipes && TakesBoth(r, one, two) && r.item == reply.item
  {
    hide FindRecipe, Fits, TakesBoth;
    var found := FindRecipe(recipes, one, two);
    forall r
      ensures Fits(r, one, two) <==> TakesBoth(r, one, two)
    {
      FitsIsTakesBoth(r, one, two);
    }
  }

  /** A craft credits one of the item made, at the rarity of the first one made, and takes one of each input. */
  lemma CraftPays(t: Tables, recipes: seq<Recipe>, user: string, one: int, r1: int, two: int, r2: int)
    ensures
      var reply, t' := CraftOutcome(t, recipes, user, one, r1, two, r2), Craft(t, recipes, user, one, r1, two, r2);
      && (!reply.Made? ==> t' == t)
      && (reply.Made? ==>
            var k := CraftKey(user, reply.item);
            && t'.crafts == t.crafts[k := if k in t.crafts then Crafted(t.crafts[k].amount + 1, t.crafts[k].shade) else Crafted(1, reply.shade)]
            && (forall v, c :: v in t.loot && 0 <= c < 9 ==>
                  v in t'.loot && t'.loot[v].shades[c] == t.loot[v].shades[c] -
                    if c == reply.shade then One(v == Slot(user, one)) + One(v == Slot(user, two)) else 0)
            && t'.auction == t.auction && t'.nextId == t.nextId)
  {
    var reply := CraftOutcome(t, recipes, user, one, r1, two, r2);
    hide CraftOutcome, Consume;
    if reply.Made? {
      TwiceConsumed(t.loot, Slot(user, one), Slot(user, two), reply.shade);
    }
  }

  // --- The tables, changed in place ---

  class LootDatabase {
    var usersLoot: map<Slot, Row>
    var auction: map<nat, Listing>
    var nextId: nat
    var userCraft: map<CraftKey, Crafted>
    const craftRep: seq<Recipe>

    ghost function State(): Tables
      reads this
    {
      Tables(usersLoot, auction, nextId, userCraft)
    }

    constructor (recipes: seq<Recipe>)
      ensures State() == EMPTY && craftRep == recipes
    {
      usersLoot, auction, nextId, userCraft, craftRep := map[], map[], 1, map[], recipes;
    }

    /** The inventory update inside find_loot. */
    method AddDrop(user: string, loot: int, rarityIndex: Rolled)
      modifies this
      ensures State() == Drop(old(State()), Slot(user, loot), rarityIndex)
    {
      var s := Slot(user, loot);
      if s in usersLoot {
        var row := usersLoot[s];
        usersLoot := usersLoot[s := Row(row.amount + 1, row.shades[rarityIndex := row.shades[rarityIndex] + 1])];
      } else {
        var cols := NO_SHADES[rarityIndex := 1];
        usersLoot := usersLoot[s := Row(1, cols)];
      }
    }

    method CreateListing(sellerId: string, lootId: int, lootAmount: int) returns (id: Option<nat>)
      modifies this
      ensures State() == List(old(State()), Slot(sellerId, lootId), lootAmount)
      ensures id == if CanList(old(State()), Slot(sellerId, lootId), lootAmount) then Some(old(nextId)) else None
    {
      var s := Slot(sellerId, lootId);
      if s !in usersLoot || usersLoot[s].amount < lootAmount {
        return None;
      }
      usersLoot := usersLoot[s := usersLoot[s].(amount := usersLoot[s].amount - lootAmount)];
      auction := auction[nextId := Listing(sellerId, lootId, lootAmount)];
      id := Some(nextId);
      nextId := nextId + 1;
    }

    method BuyListing(auctionId: nat, buyerId: string) returns (reply: Reply)
      modifies this
      ensures State() == Buy(old(State()), auctionId, buyerId)
      ensures reply == BuyReply(old(State()), auctionId, buyerId)
    {
      if auctionId !in auction {
        return NotFound;
      }
      var listing := auction[auctionId];
      if listing.seller == buyerId {
        return NotAllowed;
      }
      auction := auction - {auctionId};
      var s := Slot(buyerId, listing.loot);
      if s in usersLoot {
        usersLoot := usersLoot[s := usersLoot[s].(amount := usersLoot[s].amount + listing.amount)];
      } else {
        usersLoot := usersLoot[s := Row(listing.amount, NO_SHADES)];
      }
      return Done;
    }

    method CancelListing(auctionId: nat, userId: string) returns (reply: Reply)
      modifies this
      ensures State() == Cancel(old(State()), auctionId, userId)
      ensures reply == CancelReply(old(State()), auctionId, userId)
    {
      if auctionId !in auction {
        return NotFound;
      }
      var listing := auction[auctionId];
      if listing.seller != userId {
        return NotAllowed;
      }
      var s := Slot(userId, listing.loot);
      if s in usersLoot {
        usersLoot := usersLoot[s := usersLoot[s].(amount := usersLoot[s].amount + listing.amount)];
      }
      auction := auction - {auctionId};
      return Done;
    }

    method ConsumeOne(s: Slot, shade: nat)
      requires s in usersLoot && shade < RARITIES
      modifies this`usersLoot
      ensures usersLoot == Consume(old(usersLoot), s, shade)
    {
      var row := usersLoot[s];
      usersLoot := usersLoot[s := Row(row.amount - 1, row.shades[shade := row.shades[shade] - 1])];
    }

    /** Each argument is given as the integer that int() makes of it, or none where it raises an error. */
    method CraftAny(userId: string, one: Option<int>, rarityOne: Option<int>, two: Option<int>, rarityTwo: Option<int>)
      returns (reply: CraftReply)
      modifies this
      ensures
        if one.None? || rarityOne.None? || two.None? || rarityTwo.None? then reply == NotInteger && State() == old(State())
        else
          && State() == Craft(old(State()), craftRep, userId, one.value, rarityOne.value, two.value, rarityTwo.value)
          && reply == CraftOutcome(old(State()), craftRep, userId, one.value, rarityOne.value, two.value, rarityTwo.value)
    {
      if one.None? || rarityOne.None? || two.None? || rarityTwo.None? {
        return NotInteger;
      }
      reply := CraftItems(userId, one.value, rarityOne.value, two.value, rarityTwo.value);
    }

    method CraftItems(userId: string, itemOne: int, rarityOne: int, itemTwo: int, rarityTwo: int) returns (reply: CraftReply)
      modifies this
      ensures State() == Craft(old(State()), craftRep, userId, itemOne, rarityOne, itemTwo, rarityTwo)
      ensures reply == CraftOutcome(old(State()), craftRep, userId, itemOne, rarityOne, itemTwo, rarityTwo)
    {
      hide FindRecipe, Consume;
      var columnOne, columnTwo := Column(rarityOne), Column(rarityTwo);
      if columnOne.None? || columnTwo.None? {
        return BadRarity;
      }
      var one, two := Slot(userId, itemOne), Slot(userId, itemTwo);
      if one !in usersLoot {
        return Missing;
      }
      if usersLoot[one].shades[columnOne.value] <= 0 {
        return Missing;
      }
      if two !in usersLoot {
        return Missing;
      }
      if usersLoot[two].shades[columnTwo.value] <= 0 {
        return Missing;
      }
      if columnOne != columnTwo {
        return Mismatch;
      }
      var recipe := FindRecipe(craftRep, itemOne, itemTwo);
      if recipe.None? {
        return NoRecipe;
      }
      var key := CraftKey(userId, recipe.value.item);
      if key in userCraft {
        userCraft := userCraft[key := userCraft[key].(amount := userCraft[key].amount + 1)];
      } else {
        userCraft := userCraft[key := Crafted(1, columnOne.value)];
      }
      TwiceConsumed(usersLoot, one, two, columnOne.value);
      ConsumeOne(one, columnOne.value);
      ConsumeOne(two, columnOne.value);
      return Made(columnOne.value, recipe.value.item);
    }
  }
}
