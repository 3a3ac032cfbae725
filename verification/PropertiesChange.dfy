/** The difference of two configurations, and what it means to a listener that follows it. */
module PropertiesChange {
  import opened Wrappers

  type Key = string
  type Value = string
  type Config = map<Key, Value>
  datatype Item =
    | Add(newValue: Value)
    | Delete(oldValue: Value)
    | Modify(oldValue: Value, newValue: Value)
    | NoChange(value: Value)

  type Items = map<Key, Item>

  datatype Change = Change(hasChange: bool, items: Items) {
    predicate IsChange(key: Key) {
      key in items && !items[key].NoChange?
    }
  }

  // ------------------------------------------------------------------ building a change

  /** An ImmutableMap.Builder: a key that is put twice makes `build` throw. */
  datatype Builder = Builder(items: Items, duplicate: bool) {
    function Put(key: Key, item: Item): Builder {
      Builder(items[key := item], duplicate || key in items)
    }
  }

  /** The two values of a key that differs. */
  type Differing = map<Key, (Value, Value)>

  function At<V>(m: map<Key, V>, k: Key): Option<V> {
    if k in m then Some(m[k]) else None
  }

  /** What one loop of the constructor does: an item for each of the keys, and a note if one
      of them was there already. */
  ghost predicate Put(b: Builder, keys: set<Key>, item: Key -> Item, r: Builder) {
    && (forall k :: At(r.items, k) == if k in keys then Some(item(k)) else At(b.items, k))
    && (r.duplicate <==> b.duplicate || exists k :: k in keys && k in b.items)
  }

  method PutAll(b: Builder, keys: set<Key>, item: Key -> Item) returns (r: Builder)
    ensures Put(b, keys, item, r)
  {
    r := b;
    var rest := keys;
    while rest != {}
      invariant rest <= keys
      invariant forall k :: At(r.items, k) == if k in keys && k !in rest then Some(item(k)) else At(b.items, k)
      invariant r.duplicate <==> b.duplicate || exists k :: k in keys && k !in rest && k in b.items
      decreases |rest|
    {
      var k :| k in rest;
      assert At(r.items, k) == At(b.items, k);
      r := r.Put(k, item(k));
      rest := rest - {k};
    }
  }

  function AddItem(m: Config): Key -> Item { k => Add(if k in m then m[k] else "") }
  function DeleteItem(m: Config): Key -> Item { k => Delete(if k in m then m[k] else "") }
  function NoChangeItem(m: Config): Key -> Item { k => NoChange(if k in m then m[k] else "") }
  function ModifyItem(m: Differing): Key -> Item { k => if k in m then Modify(m[k].0, m[k].1) else Modify("", "") }

  /** The item of a key that belongs to one kind at most. */
  function ItemIn(add: Config, delete: Config, differ: Differing, same: Config, k: Key): Option<Item> {
    if k in add then Some(Add(add[k]))
    else if k in delete then Some(Delete(delete[k]))
    else if k in differ then Some(Modify(differ[k].0, differ[k].1))
    else if k in same then Some(NoChange(same[k]))
    else None
  }

  /** No key belongs to two kinds. */
  ghost predicate Disjoint(add: Config, delete: Config, differ: Differing, same: Config) {
    forall k :: !Shared(add, delete, differ, same, k)
  }

  predicate Shared(add: Config, delete: Config, differ: Differing, same: Config, k: Key) {
    || (k in delete && k in add)
    || (k in differ && (k in add || k in delete))
    || (k in same && (k in add || k in delete || k in differ))
  }

  /** The constructor; None when the builder throws, which is when two kinds share a key. */
  method MakeChange(add: Config, delete: Config, differ: Differing, same: Config) returns (r: Option<Change>)
    ensures r.Some? <==> Disjoint(add, delete, differ, same)
    ensures r.Some? ==> forall k :: At(r.value.items, k) == ItemIn(add, delete, differ, same, k)
    ensures r.Some? ==> (r.value.hasChange <==> add != map[] || delete != map[] || differ != map[])
  {
    var change := |add| != 0 || |delete| != 0 || |differ| != 0;
    hide Put;
    var b1 := PutAll(Builder(map[], false), add.Keys, AddItem(add));
    var b2 := PutAll(b1, delete.Keys, DeleteItem(delete));
    var b3 := PutAll(b2, differ.Keys, ModifyItem(differ));
    var b := PutAll(b3, same.Keys, NoChangeItem(same));
    FourLoops(add, delete, differ, same, b1, b2, b3, b);
    if b.duplicate { return None; }
    r := Some(Change(change, b.items));
  }

  lemma FourLoops(add: Config, delete: Config, differ: Differing, same: Config,
                                     b1: Builder, b2: Builder, b3: Builder, b: Builder)
    requires Put(Builder(map[], false), add.Keys, AddItem(add), b1)
    requires Put(b1, delete.Keys, DeleteItem(delete), b2)
    requires Put(b2, differ.Keys, ModifyItem(differ), b3)
    requires Put(b3, same.Keys, NoChangeItem(same), b)
    ensures b.duplicate <==> !Disjoint(add, delete, differ, same)
    ensures !b.duplicate ==> forall k :: At(b.items, k) == ItemIn(add, delete, differ, same, k)
  {
    forall k
      ensures k in b1.items <==> k in add
      ensures k in b2.items <==> k in add || k in delete
      ensures k in b3.items <==> k in add || k in delete || k in differ
      ensures !Shared(add, delete, differ, same, k) ==> At(b.items, k) == ItemIn(add, delete, differ, same, k)
    {
      LoopsAt(add, delete, differ, same, b1, b2, b3, b, k);
    }
    Clashes(add, delete, differ, same, b1, b2, b3, b);
  }

  lemma LoopsAt(add: Config, delete: Config, differ: Differing, same: Config,
                                   b1: Builder, b2: Builder, b3: Builder, b: Builder, k: Key)
    requires Put(Builder(map[], false), add.Keys, AddItem(add), b1)
    requires Put(b1, delete.Keys, DeleteItem(delete), b2)
    requires Put(b2, differ.Keys, ModifyItem(differ), b3)
    requires Put(b3, same.Keys, NoChangeItem(same), b)
    ensures k in b1.items <==> k in add
    ensures k in b2.items <==> k in add || k in delete
    ensures k in b3.items <==> k in add || k in delete || k in differ
    ensures !Shared(add, delete, differ, same, k) ==> At(b.items, k) == ItemIn(add, delete, differ, same, k)
  {
    assert At(b1.items, k) == if k in add.Keys then Some(AddItem(add)(k)) else None;
    assert At(b2.items, k) == if k in delete.Keys then Some(DeleteItem(delete)(k)) else At(b1.items, k);
    assert At(b3.items, k) == if k in differ.Keys then Some(ModifyItem(differ)(k)) else At(b2.items, k);
    assert At(b.items, k) == if k in same.Keys then Some(NoChangeItem(same)(k)) else At(b3.items, k);
    hide Put;
  }

  lemma Clashes(add: Config, delete: Config, differ: Differing, same: Config,
                                   b1: Builder, b2: Builder, b3: Builder, b: Builder)
    requires Put(Builder(map[], false), add.Keys, AddItem(add), b1)
    requires Put(b1, delete.Keys, DeleteItem(delete), b2)
    requires Put(b2, differ.Keys, ModifyItem(differ), b3)
    requires Put(b3, same.Keys, NoChangeItem(same), b)
    requires forall k :: k in b1.items <==> k in add
    requires forall k :: k in b2.items <==> k in add || k in delete
    requires forall k :: k in b3.items <==> k in add || k in delete || k in differ
    ensures b.duplicate <==> exists k :: Shared(add, delete, differ, same, k)
  {
    NoneTwice(Builder(map[], false), add.Keys, AddItem(add), b1);
    FirstTwice(b1, delete.Keys, DeleteItem(delete), b2);
    FirstTwice(b2, differ.Keys, ModifyItem(differ), b3);
    FirstTwice(b3, same.Keys, NoChangeItem(same), b);
    hide Put;
    if k :| Shared(add, delete, differ, same, k) {
      if k in same && k in b3.items { assert k in same.Keys; }
      else if k in differ && k in b2.items { assert k in differ.Keys; }
      else { assert k in delete.Keys; }
    }
    if b2.duplicate {
      var k :| k in delete.Keys && k in b1.items;
      assert Shared(add, delete, differ, same, k);
    } else if b3.duplicate {
      var k :| k in differ.Keys && k in b2.items;
      assert Shared(add, delete, differ, same, k);
    } else if b.duplicate {
      var k :| k in same.Keys && k in b3.items;
      assert Shared(add, delete, differ, same, k);
    }
  }

  lemma NoneTwice(b: Builder, keys: set<Key>, item: Key -> Item, r: Builder)
    requires Put(b, keys, item, r) && b.items == map[]
    ensures r.duplicate == b.duplicate
  {
  }

  lemma FirstTwice(b: Builder, keys: set<Key>, item: Key -> Item, r: Builder)
    requires Put(b, keys, item, r)
    ensures r.duplicate && !b.duplicate ==> exists k :: k in keys && k in b.items
    ensures b.duplicate ==> r.duplicate
    ensures forall k :: k in keys && k in b.items ==> r.duplicate
  {
  }

  // ------------------------------------------------------------------ the difference

  function OnlyIn(a: Config, b: Config): Config {
    map k | k in a && k !in b :: a[k]
  }

  function InCommon(a: Config, b: Config): Config {
    map k | k in a && k in b && a[k] == b[k] :: a[k]
  }

  function DifferingIn(a: Config, b: Config): Differing {
    map k | k in a && k in b && a[k] != b[k] :: (a[k], b[k])
  }

  /** What becomes of one key; absent when neither side has it. */
  function ItemAt(a: Config, b: Config, k: Key): Option<Item> {
    if k in a then
      if k !in b then Some(Delete(a[k]))
      else if a[k] == b[k] then Some(NoChange(a[k]))
      else Some(Modify(a[k], b[k]))
    else if k in b then Some(Add(b[k]))
    else None
  }

  /** The change between two configurations, key by key. */
  ghost predicate IsDiff(c: Change, a: Config, b: Config) {
    && (forall k :: At(c.items, k) == ItemAt(a, b, k))
    && (c.hasChange <==> a != b)
  }

  function DiffOf(a: Config, b: Config): (c: Change)
    ensures IsDiff(c, a, b)
  {
    Change(a != b, map k | k in a.Keys + b.Keys :: ItemAt(a, b, k).value)
  }

  lemma DiffIsDetermined(c: Change, a: Config, b: Config)
    requires IsDiff(c, a, b)
    ensures c == DiffOf(a, b)
  {
    var d := DiffOf(a, b);
    forall k ensures (k in c.items <==> k in d.items) && (k in c.items ==> c.items[k] == d.items[k]) {
      assert At(c.items, k) == ItemAt(a, b, k) == At(d.items, k);
    }
    assert c.items == d.items;
  }

  /** diff: the four kinds never share a key, so building always succeeds. */
  method Diff(oldConfig: Config, newConfig: Config) returns (c: Change)
    ensures c == DiffOf(oldConfig, newConfig)
    ensures c.hasChange <==> oldConfig != newConfig
    ensures forall k :: k in c.items <==> k in oldConfig || k in newConfig
    ensures forall k :: k in newConfig && k !in oldConfig ==> c.items[k] == Add(newConfig[k])
    ensures forall k :: k in oldConfig && k !in newConfig ==> c.items[k] == Delete(oldConfig[k])
    ensures forall k :: k in oldConfig && k in newConfig ==>
              c.items[k] == if oldConfig[k] == newConfig[k] then NoChange(newConfig[k]) else Modify(oldConfig[k], newConfig[k])
  {
    var add, delete := OnlyIn(newConfig, oldConfig), OnlyIn(oldConfig, newConfig);
    var differ, same := DifferingIn(oldConfig, newConfig), InCommon(oldConfig, newConfig);
    var r := MakeChange(add, delete, differ, same);
    c := r.value;
    forall k ensures At(c.items, k) == ItemAt(oldConfig, newConfig, k) {
      assert At(c.items, k) == ItemIn(add, delete, differ, same, k);
    }
    NoKindMeansEqual(oldConfig, newConfig);
    DiffIsDetermined(c, oldConfig, newConfig);
    KindByKind(c, oldConfig, newConfig);
  }

  lemma KindByKind(c: Change, a: Config, b: Config)
    requires IsDiff(c, a, b)
    ensures c.hasChange <==> a != b
    ensures forall k :: k in c.items <==> k in a || k in b
    ensures forall k :: k in b && k !in a ==> c.items[k] == Add(b[k])
    ensures forall k :: k in a && k !in b ==> c.items[k] == Delete(a[k])
    ensures forall k :: k in a && k in b ==>
              c.items[k] == if a[k] == b[k] then NoChange(b[k]) else Modify(a[k], b[k])
  {
    forall k ensures (k in c.items <==> ItemAt(a, b, k).Some?) && (k in c.items ==> Some(c.items[k]) == ItemAt(a, b, k)) {
      assert At(c.items, k) == ItemAt(a, b, k);
    }
  }

  lemma NoKindMeansEqual(a: Config, b: Config)
    ensures OnlyIn(b, a) == map[] && OnlyIn(a, b) == map[] && DifferingIn(a, b) == map[] <==> a == b
  {
    if OnlyIn(b, a) == map[] && OnlyIn(a, b) == map[] && DifferingIn(a, b) == map[] {
      forall k ensures (k in a <==> k in b) && (k in a && k in b ==> a[k] == b[k]) {
        assert k !in OnlyIn(b, a) && k !in OnlyIn(a, b) && k !in DifferingIn(a, b);
      }
    }
  }

  /** The change a late listener gets: everything there is has been added. */
  method EverythingAdded(config: Config) returns (c: Change)
    ensures c == DiffOf(map[], config)
  {
    var r := MakeChange(config, map[], map[], map[]);
    c := r.value;
    forall k ensures At(c.items, k) == ItemAt(map[], config, k) {
      assert At(c.items, k) == ItemIn(config, map[], map[], map[], k);
    }
    DiffIsDetermined(c, map[], config);
  }

  // ------------------------------------------------------------------ following the changes

  /** What a listener makes of its copy: added and modified keys set, deleted ones removed. */
  function Apply(c: Change, m: Config): (r: Config)
    ensures forall k :: At(r, k) == After(c, m, k)
  {
    map k | k in m.Keys + c.items.Keys && After(c, m, k).Some? :: After(c, m, k).value
  }

  /** The value of one key after the change. */
  function After(c: Change, m: Config, k: Key): Option<Value> {
    if k !in c.items then At(m, k)
    else match c.items[k]
      case Add(v) => Some(v)
      case Modify(_, v) => Some(v)
      case Delete(_) => None
      case NoChange(_) => At(m, k)
  }

  lemma SameAt(a: Config, b: Config)
    requires forall k :: At(a, k) == At(b, k)
    ensures a == b
  {
    forall k ensures (k in a <==> k in b) && (k in a ==> a[k] == b[k]) {
      assert At(a, k) == At(b, k);
    }
  }

  /** The difference carries the old configuration to the new one, and leaves the new one be. */
  lemma DiffApplied(c: Change, a: Config, b: Config)
    requires IsDiff(c, a, b)
    ensures Apply(c, a) == b && Apply(c, b) == b
  {
    forall k ensures After(c, a, k) == At(b, k) == After(c, b, k) {
      assert At(c.items, k) == ItemAt(a, b, k);
    }
    SameAt(Apply(c, a), b);
    SameAt(Apply(c, b), b);
  }

  /** isChange tells exactly the keys on which the two configurations differ. */
  lemma IsChangeIffDifferent(c: Change, a: Config, b: Config, k: Key)
    requires IsDiff(c, a, b)
    ensures c.IsChange(k) <==> At(a, k) != At(b, k)
  {
    assert At(c.items, k) == ItemAt(a, b, k);
  }

  /** Sent everything first, a listener that still waits for a change ends up right as well. */
  lemma ReplayedThenChanged(added: Change, c: Change, view: Config, config: Config)
    requires IsDiff(added, map[], config)
    requires Apply(c, view) == config && Apply(c, config) == config
    ensures Apply(c, Apply(added, view)) == config
  {
    forall k ensures After(c, Apply(added, view), k) == At(config, k) {
      assert At(Apply(c, view), k) == After(c, view, k) && At(Apply(c, config), k) == After(c, config, k);
      assert At(Apply(added, view), k) == After(added, view, k);
      assert At(added.items, k) == ItemAt(map[], config, k);
    }
    SameAt(Apply(c, Apply(added, view)), config);
  }

  /** Being told of the same change twice is being told once. */
  lemma ApplyTwice(c: Change, m: Config)
    ensures Apply(c, Apply(c, m)) == Apply(c, m)
  {
    forall k ensures At(Apply(c, Apply(c, m)), k) == At(Apply(c, m), k) {
      assert At(Apply(c, m), k) == After(c, m, k);
    }
    SameAt(Apply(c, Apply(c, m)), Apply(c, m));
  }

  ghost predicate NoCommonKey(first: Change, second: Change) {
    forall k :: !(first.IsChange(k) && second.IsChange(k))
  }

  /** A listener that is served a later change while an earlier one is still due ends up right
      exactly when the two changes have no key in common. */
  lemma OutOfOrder(first: Change, second: Change, view: Config, c1: Config, c2: Config)
    requires Apply(first, view) == c1 && Apply(first, c1) == c1 && IsDiff(second, c1, c2)
    ensures Apply(first, Apply(second, view)) == c2 <==> NoCommonKey(first, second)
  {
    var r := Apply(first, Apply(second, view));
    forall k ensures At(r, k) == At(c2, k) <==> !(first.IsChange(k) && second.IsChange(k)) {
      OutOfOrderAt(first, second, view, c1, c2, k);
    }
    if NoCommonKey(first, second) {
      SameAt(r, c2);
    }
  }

  lemma OutOfOrderAt(first: Change, second: Change, view: Config, c1: Config, c2: Config, k: Key)
    requires Apply(first, view) == c1 && Apply(first, c1) == c1 && IsDiff(second, c1, c2)
    ensures At(Apply(first, Apply(second, view)), k) == At(c2, k) <==> !(first.IsChange(k) && second.IsChange(k))
  {
    IsChangeIffDifferent(second, c1, c2, k);
    assert At(second.items, k) == ItemAt(c1, c2, k);
    assert At(c1, k) == After(first, view, k) == After(first, c1, k);
    assert At(Apply(second, view), k) == After(second, view, k);
    assert At(Apply(first, Apply(second, view)), k) == After(first, Apply(second, view), k);
  }
}
