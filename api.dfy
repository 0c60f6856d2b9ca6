/**
 * The drink handlers of backend/src/api.py: listing, create, update and
 * delete over the persistent drink table, with the request body's `title`
 * and `recipe` validated before anything is written.
 *
 * The table is a map from id to drink. The functions Create, Update and
 * Delete say what each handler does to the table and what it answers;
 * the class DrinkStore holds the table and its handler methods are proved
 * to do exactly that.
 */
module Api {
  import opened Wrappers

  // ---------------------------------------------------------------------
  // Data
  // ---------------------------------------------------------------------

  /** One recipe item of the request body; `None` for a key the item does not have. */
  datatype Ingredient = Ingredient(color: Option<string>, parts: Option<int>, name: Option<string>)

  /** A row of the drink table. */
  datatype Drink = Drink(title: string, recipe: seq<Ingredient>)

  datatype Entry = Entry(id: int, drink: Drink)

  /** A handler's answer: success with a value, or `abort(status)`. */
  datatype Reply<+T> = Done(value: T) | Abort(status: int)

  /** The table after a handler has run, and its answer. */
  datatype Effect<+T> = Effect(store: map<int, Drink>, reply: Reply<T>)

  const BadRequest := 400
  const NotFound := 404
  const Conflict := 409
  const InternalServerError := 500

  // ---------------------------------------------------------------------
  // Python truthiness and validation
  // ---------------------------------------------------------------------

  predicate TruthyString(s: Option<string>)
  {
    s.Some? && s.value != ""
  }

  predicate TruthyParts(p: Option<int>)
  {
    p.Some? && p.value != 0
  }

  predicate TruthyRecipe(r: Option<seq<Ingredient>>)
  {
    r.Some? && r.value != []
  }

  /** An item passes `if not color or not parts or not name` without aborting. */
  predicate Complete(item: Ingredient)
  {
    TruthyString(item.color) && TruthyParts(item.parts) && TruthyString(item.name)
  }

  predicate AllComplete(recipe: seq<Ingredient>)
  {
    forall i :: 0 <= i < |recipe| ==> Complete(recipe[i])
  }

  /** The create body passes every check before the title lookup. */
  predicate ValidBody(title: Option<string>, recipe: Option<seq<Ingredient>>)
  {
    TruthyString(title) && TruthyRecipe(recipe) && AllComplete(recipe.value)
  }

  /** `Drink.query.filter_by(title=title).first()` finds a row. */
  predicate TitleTaken(store: map<int, Drink>, title: string)
  {
    exists id :: id in store && store[id].title == title
  }

  predicate UniqueTitles(store: map<int, Drink>)
  {
    forall a, b :: a in store && b in store && store[a].title == store[b].title ==> a == b
  }

  /** The `for item in recipe` loop: true when it finishes without `abort(400)`. */
  method ValidateRecipe(recipe: seq<Ingredient>) returns (ok: bool)
    ensures ok <==> AllComplete(recipe)
  {
    for i := 0 to |recipe|
      invariant forall j :: 0 <= j < i ==> Complete(recipe[j])
    {
      var item := recipe[i];
      if !TruthyString(item.color) || !TruthyParts(item.parts) || !TruthyString(item.name) {
        return false;
      }
    }
    return true;
  }

  // ---------------------------------------------------------------------
  // The handlers, as functions of the table
  // ---------------------------------------------------------------------

  /**
   * create_drink, with `freshId` the id the database assigns and `writeOk`
   * false when `drink.insert()` raises.
   */
  function Create(store: map<int, Drink>, title: Option<string>, recipe: Option<seq<Ingredient>>,
                  freshId: int, writeOk: bool): (e: Effect<Entry>)
    requires freshId !in store
    // every failure leaves the table as it was
    ensures e.reply.Abort? ==> e.store == store
    // validation comes first: an invalid body is a 400 whether or not the title is taken
    ensures e.reply == Abort(BadRequest) <==> !ValidBody(title, recipe)
    ensures e.reply == Abort(Conflict) <==> ValidBody(title, recipe) && TitleTaken(store, title.value)
    ensures e.reply == Abort(InternalServerError) <==>
      ValidBody(title, recipe) && !TitleTaken(store, title.value) && !writeOk
    ensures e.reply.Done? <==> ValidBody(title, recipe) && !TitleTaken(store, title.value) && writeOk
    // success adds exactly one drink, under a new id, and touches no other
    ensures e.reply.Done? ==>
      && e.reply.value == Entry(freshId, Drink(title.value, recipe.value))
      && e.store.Keys == store.Keys + {freshId}
      && |e.store| == |store| + 1
      && e.store[freshId] == Drink(title.value, recipe.value)
      && (forall id :: id in store ==> e.store[id] == store[id])
  {
    if !ValidBody(title, recipe) then Effect(store, Abort(BadRequest))
    else if TitleTaken(store, title.value) then Effect(store, Abort(Conflict))
    else if !writeOk then Effect(store, Abort(InternalServerError))
    else
      var drink := Drink(title.value, recipe.value);
      Effect(store[freshId := drink], Done(Entry(freshId, drink)))
  }

  /** Because a taken title is refused, create keeps the titles of the table distinct. */
  lemma CreatePreservesUniqueTitles(store: map<int, Drink>, title: Option<string>,
                                    recipe: Option<seq<Ingredient>>, freshId: int, writeOk: bool)
    requires freshId !in store
    requires UniqueTitles(store)
    ensures UniqueTitles(Create(store, title, recipe, freshId, writeOk).store)
  {
    var e := Create(store, title, recipe, freshId, writeOk);
    if e.reply.Done? {
      assert !TitleTaken(store, title.value);
    }
  }

  /**
   * update_drink: a truthy title or recipe replaces that field, the recipe
   * only after every item passes; `writeOk` is false when `drink.update()`
   * raises and the session is rolled back.
   */
  function Update(store: map<int, Drink>, id: int, title: Option<string>, recipe: Option<seq<Ingredient>>,
                  writeOk: bool): (e: Effect<Entry>)
    // every failure leaves the table as it was
    ensures e.reply.Abort? ==> e.store == store
    // an unknown id is refused before the body is looked at
    ensures e.reply == Abort(NotFound) <==> id !in store
    ensures e.reply == Abort(BadRequest) <==>
      id in store && TruthyRecipe(recipe) && !AllComplete(recipe.value)
    ensures e.reply == Abort(InternalServerError) <==>
      id in store && (TruthyRecipe(recipe) ==> AllComplete(recipe.value)) && !writeOk
    ensures e.reply.Done? <==> id in store && (TruthyRecipe(recipe) ==> AllComplete(recipe.value)) && writeOk
    ensures e.reply.Done? ==>
      && id in store
      && e.reply.value.id == id
      && e.store == store[id := e.reply.value.drink]
      // a falsy field keeps its old value; a truthy one replaces it, with no uniqueness check on the title
      && e.reply.value.drink.title == (if TruthyString(title) then title.value else store[id].title)
      && e.reply.value.drink.recipe == (if TruthyRecipe(recipe) then recipe.value else store[id].recipe)
    ensures e.store.Keys == store.Keys
  {
    if id !in store then Effect(store, Abort(NotFound))
    else
      var drink := store[id];
      var drink := if TruthyString(title) then drink.(title := title.value) else drink;
      if TruthyRecipe(recipe) && !AllComplete(recipe.value) then Effect(store, Abort(BadRequest))
      else
        var drink := if TruthyRecipe(recipe) then drink.(recipe := recipe.value) else drink;
        if !writeOk then Effect(store, Abort(InternalServerError))
        else Effect(store[id := drink], Done(Entry(id, drink)))
  }

  /** delete_drink; `writeOk` is false when `drink.delete()` raises and the session is rolled back. */
  function Delete(store: map<int, Drink>, id: int, writeOk: bool): (e: Effect<int>)
    ensures e.reply.Abort? ==> e.store == store
    ensures e.reply == Abort(NotFound) <==> id !in store
    ensures e.reply == Abort(InternalServerError) <==> id in store && !writeOk
    ensures e.reply.Done? <==> id in store && writeOk
    // success removes exactly that id and answers with it
    ensures e.reply.Done? ==>
      && e.reply.value == id
      && e.store.Keys == store.Keys - {id}
      && |e.store| == |store| - 1
      && (forall k :: k in e.store ==> e.store[k] == store[k])
    ensures UniqueTitles(store) ==> UniqueTitles(e.store)
  {
    if id !in store then Effect(store, Abort(NotFound))
    else if !writeOk then Effect(store, Abort(InternalServerError))
    else Effect(store - {id}, Done(id))
  }

  // ---------------------------------------------------------------------
  // Properties that relate several calls
  // ---------------------------------------------------------------------

  /** Deleting the drink just created gives back the table as it was. */
  lemma CreateThenDeleteRestores(store: map<int, Drink>, title: Option<string>, recipe: Option<seq<Ingredient>>,
                                 freshId: int)
    requires freshId !in store
    requires Create(store, title, recipe, freshId, true).reply.Done?
    ensures Delete(Create(store, title, recipe, freshId, true).store, freshId, true)
            == Effect(store, Done(freshId))
  {
    var after := Create(store, title, recipe, freshId, true).store;
    assert after - {freshId} == store;
  }

  /** A second create with a title already stored and any complete recipe is a 409, and adds nothing. */
  lemma SecondCreateConflicts(store: map<int, Drink>, title: Option<string>, recipe: Option<seq<Ingredient>>,
                              recipe2: Option<seq<Ingredient>>, id1: int, id2: int, writeOk: bool)
    requires id1 !in store
    requires Create(store, title, recipe, id1, true).reply.Done?
    requires id2 !in Create(store, title, recipe, id1, true).store
    requires TruthyRecipe(recipe2) && AllComplete(recipe2.value)
    ensures var s1 := Create(store, title, recipe, id1, true).store;
      Create(s1, title, recipe2, id2, writeOk) == Effect(s1, Abort(Conflict))
  {
    var s1 := Create(store, title, recipe, id1, true).store;
    assert s1[id1].title == title.value;
  }

  /**
   * Update does not check titles, so a table whose titles are distinct can
   * end up with two drinks of the same title.
   */
  lemma UpdateCanDuplicateTitle()
    ensures var store := map[1 := Drink("Latte", []), 2 := Drink("Mocha", [])];
      && UniqueTitles(store)
      && Update(store, 2, Some("Latte"), None, true).reply.Done?
      && !UniqueTitles(Update(store, 2, Some("Latte"), None, true).store)
  {
    var store := map[1 := Drink("Latte", []), 2 := Drink("Mocha", [])];
    var after := Update(store, 2, Some("Latte"), None, true).store;
    assert after[1].title == after[2].title;
  }

  // ---------------------------------------------------------------------
  // The drink table
  // ---------------------------------------------------------------------

  class DrinkStore {
    var drinks: map<int, Drink>
    /** Next id the database hands out; every stored id is below it. */
    var nextId: int

    ghost predicate Valid()
      reads this
    {
      forall id :: id in drinks ==> id < nextId
    }

    constructor ()
      ensures Valid() && drinks == map[]
    {
      drinks := map[];
      nextId := 1;
    }

    /**
     * `Drink.query.all()`, as get_drinks and get_drinks_details read it: every
     * row exactly once, in no particular order.
     */
    method ListDrinks() returns (entries: seq<Entry>)
      ensures |entries| == |drinks|
      ensures forall i :: 0 <= i < |entries| ==> entries[i].id in drinks && drinks[entries[i].id] == entries[i].drink
      ensures forall id :: id in drinks ==> exists i :: 0 <= i < |entries| && entries[i].id == id
      ensures forall i, j :: 0 <= i < j < |entries| ==> entries[i].id != entries[j].id
    {
      var remaining := drinks.Keys;
      entries := [];
      while remaining != {}
        invariant remaining <= drinks.Keys
        invariant |entries| + |remaining| == |drinks.Keys|
        invariant forall i :: 0 <= i < |entries| ==>
          entries[i].id in drinks && entries[i].id !in remaining && drinks[entries[i].id] == entries[i].drink
        invariant forall id :: id in drinks && id !in remaining ==> exists i :: 0 <= i < |entries| && entries[i].id == id
        invariant forall i, j :: 0 <= i < j < |entries| ==> entries[i].id != entries[j].id
        decreases remaining
      {
        if forall k :: k !in remaining {
          assert false;
        }
        var key :| key in remaining;
        ghost var before, was := entries, remaining;
        entries := entries + [Entry(key, drinks[key])];
        remaining := remaining - {key};
        forall k | k in drinks && k !in remaining
          ensures exists i :: 0 <= i < |entries| && entries[i].id == k
        {
          if k == key {
            assert entries[|before|].id == k;
          } else {
            assert k !in was;
            var i :| 0 <= i < |before| && before[i].id == k;
            assert entries[i] == before[i];
          }
        }
      }
    }

    method CreateDrink(title: Option<string>, recipe: Option<seq<Ingredient>>, writeOk: bool)
      returns (r: Reply<Entry>)
      requires Valid()
      modifies this
      ensures Valid()
      ensures var e := Create(old(drinks), title, recipe, old(nextId), writeOk);
        drinks == e.store && r == e.reply
    {
      if !TruthyString(title) || !TruthyRecipe(recipe) {
        return Abort(BadRequest);
      }
      var ok := ValidateRecipe(recipe.value);
      if !ok {
        return Abort(BadRequest);
      }
      if TitleTaken(drinks, title.value) {
        return Abort(Conflict);
      }
      if !writeOk {
        return Abort(InternalServerError);
      }
      var drink := Drink(title.value, recipe.value);
      var id := nextId;
      drinks := drinks[id := drink];
      nextId := nextId + 1;
      r := Done(Entry(id, drink));
    }

    method UpdateDrink(id: int, title: Option<string>, recipe: Option<seq<Ingredient>>, writeOk: bool)
      returns (r: Reply<Entry>)
      requires Valid()
      modifies this
      ensures Valid() && nextId == old(nextId)
      ensures var e := Update(old(drinks), id, title, recipe, writeOk);
        drinks == e.store && r == e.reply
    {
      if id !in drinks {
        return Abort(NotFound);
      }
      var drink := drinks[id];
      if TruthyString(title) {
        // assigned on the session's object only; committed by drink.update()
        drink := drink.(title := title.value);
      }
      if TruthyRecipe(recipe) {
        var ok := ValidateRecipe(recipe.value);
        if !ok {
          return Abort(BadRequest);
        }
        drink := drink.(recipe := recipe.value);
      }
      if !writeOk {
        return Abort(InternalServerError);
      }
      drinks := drinks[id := drink];
      r := Done(Entry(id, drink));
    }

    method DeleteDrink(id: int, writeOk: bool) returns (r: Reply<int>)
      requires Valid()
      modifies this
      ensures Valid() && nextId == old(nextId)
      ensures var e := Delete(old(drinks), id, writeOk);
        drinks == e.store && r == e.reply
    {
      if id !in drinks {
        return Abort(NotFound);
      }
      if !writeOk {
        return Abort(InternalServerError);
      }
      drinks := drinks - {id};
      r := Done(id);
    }
  }
}
