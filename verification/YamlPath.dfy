/**
 The update of one value in a YAML document, found by the keys that lead to it (updateItem and
 updateSlice in src/k8s_client/k8s_client.go). The document is made of items that are written in
 place; what it stands for is a tree.
 */
module YamlPath {
  import opened Wrappers

  /** A key compares equal to a path element only if it is a string. */
  datatype Key = Str(text: string) | OtherKey(text: string)

  datatype Tree = Leaf(text: string) | Dict(entries: seq<Entry>)

  datatype Entry = Entry(key: Key, value: Tree)

  // ---------------------------------------------------------------- trees

  /** The position of the first entry with the key, or the number of entries. */
  function First(entries: seq<Entry>, key: string): (i: nat)
    ensures i <= |entries|
    ensures i < |entries| ==> entries[i].key == Str(key)
    ensures forall j | 0 <= j < i :: entries[j].key != Str(key)
  {
    if |entries| == 0 || entries[0].key == Str(key) then 0 else 1 + First(entries[1..], key)
  }

  lemma FirstIs(entries: seq<Entry>, key: string, i: nat)
    requires i < |entries| && entries[i].key == Str(key)
    requires forall j | 0 <= j < i :: entries[j].key != Str(key)
    ensures First(entries, key) == i
  {
  }

  /** The tree with the value at the path replaced, if the path leads anywhere. */
  function Set(t: Tree, path: seq<string>, text: string): Option<Tree>
    decreases |path|
  {
    if |path| == 0 then Some(Leaf(text))
    else if t.Leaf? then None
    else
      var i := First(t.entries, path[0]);
      if i == |t.entries| then None
      else
        match Set(t.entries[i].value, path[1..], text)
        case None => None
        case Some(value) => Some(Dict(t.entries[i := Entry(t.entries[i].key, value)]))
  }

  // ---------------------------------------------------------------- the document in memory

  datatype Value = Text(text: string) | Slice(items: seq<Item>)

  class Item {
    const key: Key
    var value: Value
    /** What the item's value stands for, and the items it is made of, this one included. */
    ghost var tree: Tree
    ghost var repr: set<Item>

    ghost predicate Valid()
      reads this, repr
      decreases repr, 0
    {
      && this in repr
      && match value
         case Text(text) => tree == Leaf(text)
         case Slice(items) =>
           ValidSlice(items, repr - {this}) && tree == Dict(Entries(items))
    }

    constructor Scalar(key: Key, text: string)
      ensures Valid() && fresh(repr) && this.key == key && tree == Leaf(text)
    {
      this.key, value, tree, repr := key, Text(text), Leaf(text), {this};
    }

    constructor Nested(key: Key, items: seq<Item>, ghost owned: set<Item>)
      requires ValidSlice(items, owned)
      ensures Valid() && fresh(repr - owned) && this.key == key && tree == Dict(Entries(items))
    {
      this.key, value, tree, repr := key, Slice(items), Dict(Entries(items)), owned + {this};
      new;
      assert repr - {this} == owned;
    }
  }

  ghost function Entries(items: seq<Item>): seq<Entry>
    reads items
  {
    seq(|items|, i requires 0 <= i < |items| reads items => Entry(items[i].key, items[i].tree))
  }

  /** The items, made of different parts of `repr`. */
  ghost predicate ValidSlice(items: seq<Item>, repr: set<Item>)
    reads repr
    decreases repr, 1
  {
    && (forall i | 0 <= i < |items| ::
          items[i] in repr && items[i].repr <= repr && items[i].Valid())
    && (forall i, j | 0 <= i < j < |items| :: items[i].repr !! items[j].repr)
  }

  /** What a call that was to replace the value at the path leaves behind. */
  ghost function AfterUpdate(before: Tree, path: seq<string>, text: string): Tree {
    var t := Set(before, path, text);
    if t.Some? then t.value else before
  }

  method UpdateItem(item: Item, path: seq<string>, text: string) returns (ok: bool)
    requires item.Valid()
    modifies item.repr
    ensures item.Valid() && item.repr == old(item.repr)
    ensures ok == Set(old(item.tree), path, text).Some?
    ensures item.tree == AfterUpdate(old(item.tree), path, text)
    decreases |path|, 2
  {
    if |path| == 0 {
      item.value := Text(text);
      item.tree := Leaf(text);
      return true;
    }
    if !item.value.Slice? {
      return false;
    }
    ok := UpdateSlice(item.value.items, path, text, item.repr - {item});
    item.tree := Dict(Entries(item.value.items));
  }

  method UpdateSlice(items: seq<Item>, path: seq<string>, text: string, ghost repr: set<Item>)
    returns (ok: bool)
    requires |path| > 0 && ValidSlice(items, repr)
    modifies repr
    ensures ValidSlice(items, repr)
    ensures ok == Set(Dict(old(Entries(items))), path, text).Some?
    ensures Dict(Entries(items)) == AfterUpdate(Dict(old(Entries(items))), path, text)
    decreases |path|, 1
  {
    for i := 0 to |items|
      invariant forall j | 0 <= j < i :: items[j].key != Str(path[0])
      invariant ValidSlice(items, repr) && Entries(items) == old(Entries(items))
    {
      if items[i].key == Str(path[0]) {
        FirstIs(Entries(items), path[0], i);
        ok := UpdateFirst(items, i, path, text, repr);
        return;
      }
    }
    ok := false;
  }

  /** The call for the first item with the key. */
  method UpdateFirst(items: seq<Item>, i: nat, path: seq<string>, text: string, ghost repr: set<Item>)
    returns (ok: bool)
    requires |path| > 0 && ValidSlice(items, repr)
    requires i < |items| && i == First(Entries(items), path[0])
    modifies repr
    ensures ValidSlice(items, repr)
    ensures ok == Set(Dict(old(Entries(items))), path, text).Some?
    ensures Dict(Entries(items)) == AfterUpdate(Dict(old(Entries(items))), path, text)
    decreases |path|, 0
  {
    ghost var before := Entries(items);
    ok := UpdateItem(items[i], path[1..], text);
    assert Entries(items) == before[i := Entry(items[i].key, items[i].tree)];
  }

  // ---------------------------------------------------------------- the laws of the update

  /** The value that the path leads to. */
  function Get(t: Tree, path: seq<string>): Option<Tree>
    decreases |path|
  {
    if |path| == 0 then Some(t)
    else if t.Leaf? then None
    else
      var i := First(t.entries, path[0]);
      if i == |t.entries| then None else Get(t.entries[i].value, path[1..])
  }

  lemma FirstStays(entries: seq<Entry>, key: string, i: nat, value: Tree)
    requires i < |entries|
    ensures First(entries[i := Entry(entries[i].key, value)], key) == First(entries, key)
  {
    var updated := entries[i := Entry(entries[i].key, value)];
    assert forall j | 0 <= j < |entries| :: updated[j].key == entries[j].key;
  }

  /** An update succeeds exactly when the path leads somewhere, and then the new value is there. */
  lemma {:induction false} GetAfterSet(t: Tree, path: seq<string>, text: string)
    ensures Set(t, path, text).Some? <==> Get(t, path).Some?
    ensures Set(t, path, text).Some? ==> Get(Set(t, path, text).value, path) == Some(Leaf(text))
    decreases |path|
  {
    if |path| > 0 && t.Dict? {
      var i := First(t.entries, path[0]);
      if i < |t.entries| {
        var child := Set(t.entries[i].value, path[1..], text);
        GetAfterSet(t.entries[i].value, path[1..], text);
        if child.Some? {
          FirstStays(t.entries, path[0], i, child.value);
        }
      }
    }
  }

  /** Of two updates at the same path only the last one counts. */
  lemma {:induction false} SetAfterSet(t: Tree, path: seq<string>, first: string, text: string)
    requires Set(t, path, first).Some?
    ensures Set(Set(t, path, first).value, path, text) == Set(t, path, text)
    decreases |path|
  {
    if |path| > 0 {
      var i := First(t.entries, path[0]);
      var child := Set(t.entries[i].value, path[1..], first).value;
      SetAfterSet(t.entries[i].value, path[1..], first, text);
      FirstStays(t.entries, path[0], i, child);
      var again := Set(t.entries[i].value, path[1..], text);
      if again.Some? {
        assert t.entries[i := Entry(t.entries[i].key, child)][i := Entry(t.entries[i].key, again.value)]
            == t.entries[i := Entry(t.entries[i].key, again.value)];
      }
    }
  }

  /** Writing the value that is there changes nothing. */
  lemma {:induction false} SetWhatIsThere(t: Tree, path: seq<string>, text: string)
    requires Get(t, path) == Some(Leaf(text))
    ensures Set(t, path, text) == Some(t)
    decreases |path|
  {
    if |path| > 0 {
      var i := First(t.entries, path[0]);
      SetWhatIsThere(t.entries[i].value, path[1..], text);
      assert t.entries[i := Entry(t.entries[i].key, t.entries[i].value)] == t.entries;
    }
  }

  /** What a path leads to that neither starts with the updated one nor is a part of it. */
  lemma {:induction false} OtherPaths(t: Tree, path: seq<string>, text: string, other: seq<string>)
    requires Set(t, path, text).Some? && !(path <= other) && !(other <= path)
    ensures Get(Set(t, path, text).value, other) == Get(t, other)
    decreases |path|
  {
    var i := First(t.entries, path[0]);
    var child := Set(t.entries[i].value, path[1..], text).value;
    FirstStays(t.entries, other[0], i, child);
    if other[0] == path[0] {
      assert path == [path[0]] + path[1..] && other == [other[0]] + other[1..];
      OtherPaths(t.entries[i].value, path[1..], text, other[1..]);
    }
  }

  // ---------------------------------------------------------------- places, not names

  /** The value at a place, given by positions. Places tell entries with the same key apart. */
  function At(t: Tree, place: seq<nat>): Option<Tree>
    decreases |place|
  {
    if |place| == 0 then Some(t)
    else if t.Leaf? || place[0] >= |t.entries| then None
    else At(t.entries[place[0]].value, place[1..])
  }

  /** The keys on the way to a place. */
  function Keys(t: Tree, place: seq<nat>): seq<Key>
    requires At(t, place).Some?
    decreases |place|
  {
    if |place| == 0 then []
    else [t.entries[place[0]].key] + Keys(t.entries[place[0]].value, place[1..])
  }

  predicate Spells(keys: seq<Key>, path: seq<string>) {
    |keys| == |path| && forall i | 0 <= i < |keys| :: keys[i] == Str(path[i])
  }

  /** `a` comes before `b` in the document. */
  predicate Before(a: seq<nat>, b: seq<nat>) {
    |a| > 0 && |b| > 0 && (a[0] < b[0] || (a[0] == b[0] && Before(a[1..], b[1..])))
  }

  /**
   An update that succeeds changes one place: the first one whose keys spell the path. Every place
   that neither contains it nor lies in it has the value it had, whatever its keys.
   */
  lemma {:induction false} ChangesThePlace(t: Tree, path: seq<string>, text: string)
    returns (place: seq<nat>)
    requires Set(t, path, text).Some?
    ensures At(t, place).Some? && Spells(Keys(t, place), path)
    ensures At(Set(t, path, text).value, place) == Some(Leaf(text))
    ensures forall b | At(t, b).Some? && Spells(Keys(t, b), path) :: b == place || Before(place, b)
    ensures forall b | !(place <= b) && !(b <= place) :: At(Set(t, path, text).value, b) == At(t, b)
    decreases |path|
  {
    if |path| == 0 {
      place := [];
      assert Keys(t, place) == [];
      forall b | At(t, b).Some? && Spells(Keys(t, b), path)
        ensures b == place
      {
        assert |Keys(t, b)| == 0;
      }
    } else {
      var i := First(t.entries, path[0]);
      var rest := ChangesThePlace(t.entries[i].value, path[1..], text);
      place := [i] + rest;
      assert place[1..] == rest;
      var child := Keys(t.entries[i].value, rest);
      assert Keys(t, place) == [t.entries[i].key] + child;
      forall k | 0 <= k < |Keys(t, place)|
        ensures Keys(t, place)[k] == Str(path[k])
      {
        if k > 0 {
          assert child[k - 1] == Str(path[1..][k - 1]);
        }
      }
      forall b | At(t, b).Some? && Spells(Keys(t, b), path)
        ensures b == place || Before(place, b)
      {
        LaterPlace(t, path, i, rest, b);
      }
      forall b | !(place <= b) && !(b <= place)
        ensures At(Set(t, path, text).value, b) == At(t, b)
      {
        if b[0] == i {
          assert b == [i] + b[1..];
          assert !(rest <= b[1..]) && !(b[1..] <= rest);
        }
      }
    }
  }

  /** A place with the same keys starts with the first entry of the key or with a later one. */
  lemma LaterPlace(t: Tree, path: seq<string>, i: nat, rest: seq<nat>, b: seq<nat>)
    requires |path| > 0 && t.Dict? && i == First(t.entries, path[0]) && i < |t.entries|
    requires forall c | At(t.entries[i].value, c).Some? && Spells(Keys(t.entries[i].value, c), path[1..]) ::
               c == rest || Before(rest, c)
    requires At(t, b).Some? && Spells(Keys(t, b), path)
    ensures b == [i] + rest || Before([i] + rest, b)
  {
  }
}
