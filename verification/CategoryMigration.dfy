/**
 Dropping the fixed item category: every item is linked to a category row of its own
 home, and the downgrade reads the first value back from the linked row.
 */
module CategoryMigration {
  import opened Prelude
  import opened Selection

  type ItemId = nat
  type HomeId = nat
  type CategoryId = nat

  /** An item before the migration: the enum column, and a link that may be missing. */
  datatype Item = Item(homeId: HomeId, category: Option<string>, categoryId: Option<CategoryId>)

  /** An item after it: the link is required, the enum column is gone. */
  datatype LinkedItem = LinkedItem(homeId: HomeId, categoryId: CategoryId)

  datatype Category = Category(homeId: HomeId, name: string)

  type Items = map<ItemId, Item>
  type Categories = map<CategoryId, Category>

  /** The values of inventory_category_enum. */
  const ENUM: set<string> := {"kitchen", "bathroom", "cleaning", "other"}

  function LowerChar(c: char): char {
    if 'A' <= c <= 'Z' then c - 'A' + 'a' else c
  }

  function UpperChar(c: char): char {
    if 'a' <= c <= 'z' then c - 'a' + 'A' else c
  }

  function Lower(s: string): string {
    if s == "" then "" else [LowerChar(s[0])] + Lower(s[1..])
  }

  /** str.capitalize */
  function Capitalize(s: string): string {
    if s == "" then "" else [UpperChar(s[0])] + Lower(s[1..])
  }

  /** The enum value the downgrade gives an item whose category row has this name. */
  function EnumValue(name: string): string {
    if Lower(name) in {"kitchen", "bathroom", "cleaning"} then Lower(name) else "other"
  }

  /** Unique constraint uq_household_category_home_name. */
  predicate UniqueNames(categories: Categories) {
    forall a, b | a in categories && b in categories && categories[a] == categories[b] :: a == b
  }

  /** Foreign key: links point to category rows. */
  predicate LinksExist(items: Items, categories: Categories) {
    forall i | i in items && items[i].categoryId.Some? :: items[i].categoryId.value in categories
  }

  type Pair = (HomeId, Option<string>)

  /** SELECT DISTINCT home_id, category ... WHERE household_category_id IS NULL */
  function UnlinkedPairs(items: Items): set<Pair> {
    set i | i in items && items[i].categoryId.None? :: (items[i].homeId, items[i].category)
  }

  predicate Kept(categories: Categories, categories': Categories) {
    forall c | c in categories :: c in categories' && categories'[c] == categories[c]
  }

  /** What the loop has done to one item after the given pairs. */
  predicate LinkedSoFar(before: Item, after: Item, pairs: seq<Pair>, categories: Categories) {
    if before.categoryId.None? && before.category.Some? && (before.homeId, before.category) in pairs then
      && after.homeId == before.homeId && after.category == before.category
      && after.categoryId.Some? && after.categoryId.value in categories
      && categories[after.categoryId.value] == Category(before.homeId, Capitalize(before.category.value))
    else after == before
  }

  /** The new categories are those some unlinked item needed. */
  predicate OnlyNeeded(before: Items, first: Categories, categories: Categories) {
    forall c | c in categories && c !in first ::
      exists i :: i in before && before[i].categoryId.None? && before[i].category.Some?
                  && categories[c] == Category(before[i].homeId, Capitalize(before[i].category.value))
  }

  /** The UPDATE of one pair. */
  function LinkPair(items: Items, home: HomeId, category: string, id: CategoryId): Items {
    map i | i in items ::
      if items[i].homeId == home && items[i].category == Some(category) && items[i].categoryId.None? then
        items[i].(categoryId := Some(id))
      else items[i]
  }

  /** One iteration of the backfill loop. */
  lemma LinkPairStep(before: Items, items: Items, pairs: seq<Pair>, categories: Categories, categories': Categories,
                     home: HomeId, category: string, id: CategoryId)
    requires items.Keys == before.Keys
    requires forall i | i in before :: LinkedSoFar(before[i], items[i], pairs, categories)
    requires (home, Some(category)) !in pairs && Kept(categories, categories')
    requires id in categories' && categories'[id] == Category(home, Capitalize(category))
    ensures var items' := LinkPair(items, home, category, id);
            forall i | i in before :: LinkedSoFar(before[i], items'[i], pairs + [(home, Some(category))], categories')
  {
  }

  /** Adding a category row under a name the home does not have yet. */
  lemma NewCategory(before: Items, first: Categories, categories: Categories, id: CategoryId, c: Category, i: ItemId)
    requires UniqueNames(categories) && OnlyNeeded(before, first, categories) && Kept(first, categories)
    requires id !in categories && forall k | k in categories :: categories[k] != c
    requires i in before && before[i].categoryId.None? && before[i].category.Some?
    requires c == Category(before[i].homeId, Capitalize(before[i].category.value))
    ensures UniqueNames(categories[id := c]) && Kept(first, categories[id := c])
    ensures OnlyNeeded(before, first, categories[id := c])
  {
    forall k | k in categories[id := c] && k !in first
      ensures exists i :: i in before && before[i].categoryId.None? && before[i].category.Some?
                          && categories[id := c][k] == Category(before[i].homeId, Capitalize(before[i].category.value))
    {
      if k == id {
        assert categories[id := c][k] == Category(before[i].homeId, Capitalize(before[i].category.value));
      }
    }
  }

  /**
   upgrade: links every unlinked item to a category of its own home, creating rows as needed, and then
   makes the link required. `uuid4` supplies the fresh ids. None: an item without category stays unlinked,
   the NOT NULL fails and the migration rolls back.
   */
  method Upgrade(items: Items, categories: Categories, uuid4: nat -> CategoryId)
      returns (r: Option<(map<ItemId, LinkedItem>, Categories)>)
    requires UniqueNames(categories) && LinksExist(items, categories)
    requires forall m: nat, n: nat :: uuid4(m) == uuid4(n) ==> m == n
    requires forall n: nat :: uuid4(n) !in categories
    ensures r == None <==> exists i :: i in items && items[i].categoryId.None? && items[i].category.None?
    ensures r.Some? ==>
      var (items', categories') := r.value;
      && items'.Keys == items.Keys
      && UniqueNames(categories') && Kept(categories, categories') && OnlyNeeded(items, categories, categories')
      && (forall i | i in items ::
            items'[i].homeId == items[i].homeId && items'[i].categoryId in categories'
            && (items[i].categoryId.Some? ==> items'[i].categoryId == items[i].categoryId.value)
            && (items[i].categoryId.None? ==>
                  items[i].category.Some?
                  && categories'[items'[i].categoryId]
                     == Category(items[i].homeId, Capitalize(items[i].category.value))))
  {
    hide UniqueNames, Kept, OnlyNeeded, LinkedSoFar, LinkPair, Capitalize;
    var pairs := InSomeOrder(UnlinkedPairs(items));
    ListingFacts(pairs, UnlinkedPairs(items));
    var rows, cats := items, categories;
    Start(items, categories);
    var drawn := 0;
    for n := 0 to |pairs|
      invariant Backfilled(items, categories, rows, cats, pairs[..n])
      invariant forall m: nat | m >= drawn :: uuid4(m) !in cats
    {
      assert pairs[..n + 1] == pairs[..n] + [pairs[n]];
      assert pairs[n] in UnlinkedPairs(items) && pairs[n] !in pairs[..n];
      var (home, category) := pairs[n];
      if category.Some? {
        var id, cats' := FindOrCreate(cats, Category(home, Capitalize(category.value)), uuid4(drawn));
        drawn := drawn + 1;
        PairStep(items, categories, rows, cats, pairs[..n], home, category.value, id, uuid4(drawn - 1), cats');
        rows := LinkPair(rows, home, category.value, id);
        cats := cats';
      } else {
        SkipStep(items, categories, rows, cats, pairs[..n], home);
      }
    }
    assert pairs[..|pairs|] == pairs;
    Finish(items, categories, rows, cats, pairs);
    if i :| i in rows && rows[i].categoryId.None? {
      return None;
    }
    r := Some((map i | i in rows :: LinkedItem(rows[i].homeId, rows[i].categoryId.value), cats));
  }

  /** The loop invariant of the backfill. */
  ghost predicate Backfilled(items: Items, first: Categories, rows: Items, cats: Categories, pairs: seq<Pair>) {
    && rows.Keys == items.Keys
    && UniqueNames(cats) && Kept(first, cats) && OnlyNeeded(items, first, cats)
    && forall i | i in items :: LinkedSoFar(items[i], rows[i], pairs, cats)
  }

  lemma Start(items: Items, categories: Categories)
    requires UniqueNames(categories)
    ensures Backfilled(items, categories, items, categories, [])
  {
  }

  lemma SkipStep(items: Items, first: Categories, rows: Items, cats: Categories, pairs: seq<Pair>, home: HomeId)
    requires Backfilled(items, first, rows, cats, pairs)
    ensures Backfilled(items, first, rows, cats, pairs + [(home, None)])
  {
    hide UniqueNames, Kept, OnlyNeeded;
    forall i | i in items ensures LinkedSoFar(items[i], rows[i], pairs + [(home, None)], cats) {
      assert LinkedSoFar(items[i], rows[i], pairs, cats);
    }
  }

  /** The SELECT, and the INSERT when it found nothing. */
  method FindOrCreate(cats: Categories, c: Category, newId: CategoryId) returns (id: CategoryId, cats': Categories)
    requires newId !in cats
    ensures id in cats' && cats'[id] == c
    ensures if exists k :: k in cats && cats[k] == c then cats' == cats else id == newId && cats' == cats[newId := c]
  {
    if k :| k in cats && cats[k] == c {
      id, cats' := k, cats;
    } else {
      id, cats' := newId, cats[newId := c];
    }
  }

  lemma PairStep(items: Items, first: Categories, rows: Items, cats: Categories, pairs: seq<Pair>,
                 home: HomeId, category: string, id: CategoryId, newId: CategoryId, cats': Categories)
    requires Backfilled(items, first, rows, cats, pairs)
    requires (home, Some(category)) !in pairs && (home, Some(category)) in UnlinkedPairs(items)
    requires var c := Category(home, Capitalize(category));
             && newId !in cats && id in cats' && cats'[id] == c
             && (if exists k :: k in cats && cats[k] == c then cats' == cats else cats' == cats[newId := c])
    ensures Backfilled(items, first, LinkPair(rows, home, category, id), cats', pairs + [(home, Some(category))])
  {
    hide Capitalize;
    var c := Category(home, Capitalize(category));
    if cats' != cats {
      var i :| i in items && items[i].categoryId.None?
               && (items[i].homeId, items[i].category) == (home, Some(category));
      NewCategory(items, first, cats, newId, c, i);
    }
    LinkPairStep(items, rows, pairs, cats, cats', home, category, id);
  }

  /** After every pair: linked rows kept their link, unlinked ones have the right one, unless they had no category. */
  lemma Finish(items: Items, first: Categories, rows: Items, cats: Categories, pairs: seq<Pair>)
    requires Backfilled(items, first, rows, cats, pairs)
    requires forall p :: p in pairs <==> p in UnlinkedPairs(items)
    ensures rows.Keys == items.Keys && UniqueNames(cats) && Kept(first, cats) && OnlyNeeded(items, first, cats)
    ensures LinksExist(items, first) ==> LinksExist(rows, cats)
    ensures forall i | i in items ::
              && rows[i].homeId == items[i].homeId
              && (rows[i].categoryId.None? <==> items[i].categoryId.None? && items[i].category.None?)
              && (items[i].categoryId.Some? ==> rows[i].categoryId == items[i].categoryId)
              && (items[i].categoryId.None? && items[i].category.Some? ==>
                    rows[i].categoryId.Some? && rows[i].categoryId.value in cats
                    && cats[rows[i].categoryId.value] == Category(items[i].homeId, Capitalize(items[i].category.value)))
  {
    hide UniqueNames, OnlyNeeded, Capitalize;
    forall i | i in items && items[i].categoryId.None? ensures (items[i].homeId, items[i].category) in pairs {
      assert (items[i].homeId, items[i].category) in UnlinkedPairs(items);
    }
    forall i | i in items ensures LinkedSoFar(items[i], rows[i], pairs, cats) {
    }
  }

  /** downgrade: one update per row of the join of items with their categories. */
  method Downgrade(items: map<ItemId, LinkedItem>, categories: Categories) returns (rows: Items)
    requires forall i | i in items :: items[i].categoryId in categories
    ensures rows.Keys == items.Keys
    ensures forall i | i in items ::
              rows[i] == Item(items[i].homeId, Some(EnumValue(categories[items[i].categoryId].name)),
                              Some(items[i].categoryId))
  {
    rows := map i | i in items :: Item(items[i].homeId, None, Some(items[i].categoryId));
    var todo := items.Keys;
    while todo != {}
      invariant todo <= items.Keys && rows.Keys == items.Keys
      invariant forall i | i in items :: rows[i] == Item(items[i].homeId,
                  if i in todo then None else Some(EnumValue(categories[items[i].categoryId].name)),
                  Some(items[i].categoryId))
      decreases todo
    {
      var i :| i in todo;
      todo := todo - {i};
      rows := rows[i := rows[i].(category := Some(EnumValue(categories[items[i].categoryId].name)))];
    }
  }

  predicate AllLower(s: string) {
    forall i | 0 <= i < |s| :: 'a' <= s[i] <= 'z'
  }

  /** A letter of the ASCII alphabet in the other case, or the character itself. */
  predicate LowerOf(c: char, lower: char) {
    if 'A' <= c <= 'Z' then lower as int == c as int + 32 else lower == c
  }

  predicate UpperOf(c: char, upper: char) {
    if 'a' <= c <= 'z' then upper as int + 32 == c as int else upper == c
  }

  lemma {:induction false} LowerMeans(s: string)
    ensures |Lower(s)| == |s| && forall i | 0 <= i < |s| :: LowerOf(s[i], Lower(s)[i])
  {
    if s == "" {
    } else {
      LowerMeans(s[1..]);
    }
  }

  /** capitalize: the first letter in upper case, every other in lower case. */
  lemma CapitalizeMeans(s: string)
    ensures |Capitalize(s)| == |s| && (s != "" ==> UpperOf(s[0], Capitalize(s)[0]))
    ensures forall i | 1 <= i < |s| :: LowerOf(s[i], Capitalize(s)[i])
  {
    if s != "" { LowerMeans(s[1..]); }
  }

  /** The name is this value, whatever the case of its letters. */
  predicate ReadsAs(name: string, value: string) {
    |name| == |value| && forall i | 0 <= i < |name| :: LowerOf(name[i], value[i])
  }

  /** The downgrade reads the three fixed names in any case, and every other name as "other". */
  lemma EnumValueMeans(name: string)
    ensures EnumValue(name) in ENUM
    ensures forall value | value in {"kitchen", "bathroom", "cleaning"} ::
              EnumValue(name) == value <==> ReadsAs(name, value)
  {
    LowerMeans(name);
    assert "other" !in {"kitchen", "bathroom", "cleaning"} by {
      assert |"other"| == 5 && |"kitchen"| == 7 && |"bathroom"| == |"cleaning"| == 8;
    }
    forall value | value in {"kitchen", "bathroom", "cleaning"}
      ensures EnumValue(name) == value <==> ReadsAs(name, value)
    {
      if ReadsAs(name, value) {
        assert Lower(name) == value;
      }
    }
  }

  /** For a lower-case word, lower() undoes capitalize(). */
  lemma LowerCapitalize(s: string)
    requires AllLower(s)
    ensures Lower(Capitalize(s)) == s
  {
    if s != "" {
      LowerFixed(s[1..]);
      assert Capitalize(s)[1..] == s[1..];
      assert s == [s[0]] + s[1..];
    }
  }

  lemma CapitalizeLowers(c: string)
    requires c in ENUM
    ensures EnumValue(Capitalize(c)) == c
  {
    hide Lower, Capitalize;
    LowerCapitalize(c);
  }

  lemma {:induction false} LowerFixed(s: string)
    requires AllLower(s)
    ensures Lower(s) == s
  {
    if s != "" {
      LowerFixed(s[1..]);
      assert s == [s[0]] + s[1..];
    }
  }

  /**
   Round trip: downgrade after upgrade gives every item that was unlinked its original category back,
   keeps every item's home, and leaves each with a link to a category that exists.
   */
  method UpgradeThenDowngrade(items: Items, categories: Categories, uuid4: nat -> CategoryId)
      returns (restored: Option<Items>)
    requires UniqueNames(categories) && LinksExist(items, categories)
    requires forall m: nat, n: nat :: uuid4(m) == uuid4(n) ==> m == n
    requires forall n: nat :: uuid4(n) !in categories
    requires forall i | i in items && items[i].category.Some? :: items[i].category.value in ENUM
    ensures restored == None <==> exists i :: i in items && items[i].categoryId.None? && items[i].category.None?
    ensures restored.Some? ==>
      && restored.value.Keys == items.Keys
      && forall i | i in items ::
           && restored.value[i].homeId == items[i].homeId && restored.value[i].categoryId.Some?
           && (items[i].categoryId.None? ==> restored.value[i].category == items[i].category)
           && (items[i].categoryId.Some? ==>
                 restored.value[i].category == Some(EnumValue(categories[items[i].categoryId.value].name)))
  {
    var r := Upgrade(items, categories, uuid4);
    if r.None? { return None; }
    var (linked, cats) := r.value;
    var rows := Downgrade(linked, cats);
    forall i | i in items && items[i].categoryId.None? ensures rows[i].category == items[i].category {
      CapitalizeLowers(items[i].category.value);
    }
    restored := Some(rows);
  }
}
