/** The reshaping of a Salesforce query response in
    src/naics_code_data_generation.py: `remove_a_key`, `flatten` and
    `create_df_from_req`. A decoded JSON value is a tree; a dict is its list of
    entries in insertion order, as Python keeps it. */
module SfRecords {
  import opened Seqs

  /** A decoded JSON value: a scalar (string, number, boolean or null, kept
      as its text), a list, or a dict. */
  datatype Value = Atom(text: string) | List(items: seq<Value>) | Dict(entries: seq<Entry>)
  datatype Entry = Entry(key: string, val: Value)

  datatype Result<T> = Ok(value: T) | Err(msg: string)

  function EntryKeys(es: seq<Entry>): (r: seq<string>)
    ensures |r| == |es| && forall i :: 0 <= i < |es| ==> r[i] == es[i].key
  {
    if es == [] then [] else [es[0].key] + EntryKeys(es[1..])
  }

  lemma EntryKeysAppend(a: seq<Entry>, b: seq<Entry>)
    ensures EntryKeys(a + b) == EntryKeys(a) + EntryKeys(b)
  {
    assert forall i :: 0 <= i < |a + b| ==> EntryKeys(a + b)[i] == (EntryKeys(a) + EntryKeys(b))[i];
  }

  // -------------------------------------------------------------- remove_a_key

  /** Lines 68-79, `remove_a_key(d, k)`: a dict loses its entries keyed `k` and
      every other value is processed in turn; anything that is not a dict,
      lists included, is returned as it is. */
  function RemoveKey(v: Value, k: string): Value {
    match v
    case Dict(es) => Dict(RemoveIn(es, k))
    case _ => v
  }

  function RemoveIn(es: seq<Entry>, k: string): seq<Entry>
    decreases es
  {
    if es == [] then []
    else (if es[0].key == k then [] else [Entry(es[0].key, RemoveKey(es[0].val, k))]) + RemoveIn(es[1..], k)
  }

  /** No dict reachable from `v` through dicts has an entry keyed `k`. */
  predicate NoKey(v: Value, k: string) {
    match v
    case Dict(es) => NoKeyIn(es, k)
    case _ => true
  }

  predicate NoKeyIn(es: seq<Entry>, k: string)
    decreases es
  {
    es == [] || (es[0].key != k && NoKey(es[0].val, k) && NoKeyIn(es[1..], k))
  }

  lemma {:induction false} RemoveInAppend(a: seq<Entry>, b: seq<Entry>, k: string)
    ensures RemoveIn(a + b, k) == RemoveIn(a, k) + RemoveIn(b, k)
  {
    if a == [] {
      assert a + b == b;
    } else {
      assert (a + b)[0] == a[0];
      assert (a + b)[1..] == a[1..] + b;
      RemoveInAppend(a[1..], b, k);
    }
  }

  /** After the removal no dict reachable through dicts holds the key. */
  lemma {:induction false} RemoveInGone(es: seq<Entry>, k: string)
    ensures NoKeyIn(RemoveIn(es, k), k)
    decreases es
  {
    if es != [] {
      RemoveInGone(es[1..], k);
      if es[0].key != k {
        var r := RemoveIn(es, k);
        assert r[0] == Entry(es[0].key, RemoveKey(es[0].val, k)) && r[1..] == RemoveIn(es[1..], k);
        match es[0].val {
          case Dict(sub) =>
            RemoveInGone(sub, k);
            assert NoKey(r[0].val, k);
          case _ =>
        }
        assert NoKeyIn(r[1..], k);
      } else {
        assert RemoveIn(es, k) == RemoveIn(es[1..], k);
      }
    }
  }

  lemma RemoveKeyGone(v: Value, k: string)
    ensures NoKey(RemoveKey(v, k), k)
  {
    if v.Dict? {
      RemoveInGone(v.entries, k);
    }
  }

  /** Every other key keeps its place: the keys left are the old ones minus `k`, in order. */
  lemma {:induction false} RemoveInKeys(es: seq<Entry>, k: string)
    ensures EntryKeys(RemoveIn(es, k)) == Filter(EntryKeys(es), x => x != k)
  {
    if es != [] {
      RemoveInKeys(es[1..], k);
      var head := if es[0].key == k then [] else [Entry(es[0].key, RemoveKey(es[0].val, k))];
      EntryKeysAppend(head, RemoveIn(es[1..], k));
      assert EntryKeys(es)[1..] == EntryKeys(es[1..]);
    }
  }

  /** A value that holds no such key is left unchanged. */
  lemma {:induction false} RemoveInUnchanged(es: seq<Entry>, k: string)
    requires NoKeyIn(es, k)
    ensures RemoveIn(es, k) == es
    decreases es
  {
    if es != [] {
      RemoveInUnchanged(es[1..], k);
      match es[0].val {
        case Dict(sub) => RemoveInUnchanged(sub, k);
        case _ =>
      }
      assert es == [es[0]] + es[1..];
    }
  }

  /** Removing a key twice is removing it once. */
  lemma RemoveKeyIdempotent(v: Value, k: string)
    ensures RemoveKey(RemoveKey(v, k), k) == RemoveKey(v, k)
  {
    if v.Dict? {
      RemoveInGone(v.entries, k);
      RemoveInUnchanged(RemoveIn(v.entries, k), k);
    }
  }

  /** Anything that is not a dict comes back as it was. */
  lemma RemoveKeyNotDict(v: Value, k: string)
    requires !v.Dict?
    ensures RemoveKey(v, k) == v
  {
  }

  /** Lists are not searched: a dict inside a list keeps the key. */
  lemma ListsNotSearched()
    ensures var inner := Dict([Entry("attributes", Atom("x"))]);
            RemoveKey(List([inner]), "attributes") == List([inner])
  {
  }

  /** The loop of lines 74-78 over a snapshot of the keys, on a tree value: an
      entry with the key is dropped, any other has its value processed in turn. */
  method RemoveAKey(d: Value, removeKey: string) returns (r: Value)
    ensures r == RemoveKey(d, removeKey)
    decreases d
  {
    if !d.Dict? {
      return d;
    }
    var es := d.entries;
    var kept: seq<Entry> := [];
    var i := 0;
    while i < |es|
      invariant 0 <= i <= |es|
      invariant kept == RemoveIn(es[..i], removeKey)
    {
      assert es[..i + 1] == es[..i] + [es[i]];
      RemoveInAppend(es[..i], [es[i]], removeKey);
      if es[i].key != removeKey {
        var sub := RemoveAKey(es[i].val, removeKey);
        kept := kept + [Entry(es[i].key, sub)];
      }
      i := i + 1;
    }
    assert es[..i] == es;
    r := Dict(kept);
  }

  // -------------------------------------------------------------- dict(items)

  /** `d[e.key] = e.val`: an existing key keeps its place and takes the new
      value; a new key goes last. */
  function Put(d: seq<Entry>, e: Entry): (r: seq<Entry>)
    ensures e in r
  {
    if d == [] then [e]
    else if d[0].key == e.key then [e] + d[1..]
    else [d[0]] + Put(d[1..], e)
  }

  lemma {:induction false} PutKeys(d: seq<Entry>, e: Entry)
    ensures forall k :: k in EntryKeys(Put(d, e)) <==> k in EntryKeys(d) || k == e.key
  {
    if d != [] {
      assert EntryKeys(d) == [d[0].key] + EntryKeys(d[1..]);
      if d[0].key == e.key {
        assert EntryKeys(Put(d, e)) == [e.key] + EntryKeys(d[1..]);
      } else {
        PutKeys(d[1..], e);
        assert EntryKeys(Put(d, e)) == [d[0].key] + EntryKeys(Put(d[1..], e));
      }
    }
  }

  lemma {:induction false} PutFrom(d: seq<Entry>, e: Entry)
    ensures forall x :: x in Put(d, e) ==> x in d || x == e
  {
    if d != [] && d[0].key != e.key {
      PutFrom(d[1..], e);
    }
  }

  lemma {:induction false} PutNew(d: seq<Entry>, e: Entry)
    requires e.key !in EntryKeys(d)
    ensures Put(d, e) == d + [e]
  {
    if d != [] {
      assert EntryKeys(d)[1..] == EntryKeys(d[1..]);
      PutNew(d[1..], e);
    }
  }

  lemma {:induction false} PutUnique(d: seq<Entry>, e: Entry)
    requires NoDuplicates(EntryKeys(d))
    ensures NoDuplicates(EntryKeys(Put(d, e)))
  {
    if d != [] {
      assert EntryKeys(d) == [d[0].key] + EntryKeys(d[1..]);
      NoDuplicatesCons(d[0].key, EntryKeys(d[1..]));
      if d[0].key == e.key {
        assert EntryKeys(Put(d, e)) == [e.key] + EntryKeys(d[1..]);
        NoDuplicatesCons(e.key, EntryKeys(d[1..]));
      } else {
        PutUnique(d[1..], e);
        PutKeys(d[1..], e);
        assert EntryKeys(Put(d, e)) == [d[0].key] + EntryKeys(Put(d[1..], e));
        NoDuplicatesCons(d[0].key, EntryKeys(Put(d[1..], e)));
      }
    }
  }

  /** Each item put in turn. */
  function PutAll(d: seq<Entry>, items: seq<Entry>): seq<Entry>
    decreases items
  {
    if items == [] then d else PutAll(Put(d, items[0]), items[1..])
  }

  lemma {:induction false} PutAllFacts(d: seq<Entry>, items: seq<Entry>)
    decreases items
    ensures NoDuplicates(EntryKeys(d)) ==> NoDuplicates(EntryKeys(PutAll(d, items)))
    ensures forall k :: k in EntryKeys(PutAll(d, items)) <==> k in EntryKeys(d) || k in EntryKeys(items)
    ensures forall x :: x in PutAll(d, items) ==> x in d || x in items
  {
    if items != [] {
      var d' := Put(d, items[0]);
      PutAllFacts(d', items[1..]);
      PutKeys(d, items[0]);
      PutFrom(d, items[0]);
      if NoDuplicates(EntryKeys(d)) {
        PutUnique(d, items[0]);
      }
      assert EntryKeys(items) == [items[0].key] + EntryKeys(items[1..]);
    }
  }

  lemma {:induction false} PutAllFresh(d: seq<Entry>, items: seq<Entry>)
    requires NoDuplicates(EntryKeys(d + items))
    ensures PutAll(d, items) == d + items
    decreases items
  {
    if items == [] {
      assert d + items == d;
    } else {
      var x := items[0];
      var ks := EntryKeys(d + items);
      assert x.key !in EntryKeys(d) by {
        forall i | 0 <= i < |d|
          ensures EntryKeys(d)[i] != x.key
        {
          assert ks[i] == d[i].key && ks[|d|] == x.key;
        }
      }
      PutNew(d, x);
      assert d + items == (d + [x]) + items[1..];
      PutAllFresh(d + [x], items[1..]);
    }
  }

  lemma PutAllFreshWhenUnique(items: seq<Entry>)
    ensures NoDuplicates(EntryKeys(items)) ==> PutAll([], items) == items
  {
    if NoDuplicates(EntryKeys(items)) {
      assert [] + items == items;
      PutAllFresh([], items);
    }
  }

  /** `dict(items)`: unique keys, the keys of the items, values taken from the
      items; items with unique keys come back as they are. */
  function ToDict(items: seq<Entry>): (r: seq<Entry>)
    ensures NoDuplicates(EntryKeys(r))
    ensures forall k :: k in EntryKeys(r) <==> k in EntryKeys(items)
    ensures forall x :: x in r ==> x in items
    ensures NoDuplicates(EntryKeys(items)) ==> r == items
  {
    PutAllFacts([], items);
    assert [] + items == items;
    PutAllFreshWhenUnique(items);
    PutAll([], items)
  }

  /** The value of the last item keyed `k`, or nothing when no item has that key. */
  function LastValue(items: seq<Entry>, k: string): Option<Value> {
    if items == [] then None
    else if items[|items| - 1].key == k then Some(items[|items| - 1].val)
    else LastValue(items[..|items| - 1], k)
  }

  /** `LastValue` gives nothing exactly when no item has the key. */
  lemma {:induction false} LastValueNone(items: seq<Entry>, k: string)
    ensures LastValue(items, k).None? <==> k !in EntryKeys(items)
  {
    if items != [] {
      var n := |items| - 1;
      var init, x := items[..n], items[n];
      assert items == init + [x];
      EntryKeysAppend(init, [x]);
      assert EntryKeys([x]) == [x.key];
      if x.key != k {
        LastValueNone(init, k);
      }
    }
  }

  /** Otherwise it is the value of an item keyed `k` with no later item of that key. */
  lemma {:induction false} LastValueAt(items: seq<Entry>, k: string)
    ensures LastValue(items, k).Some? ==> exists i :: LastAt(items, k, i) && items[i].val == LastValue(items, k).value
  {
    if items != [] {
      var n := |items| - 1;
      if items[n].key == k {
        assert LastAt(items, k, n);
      } else {
        var init := items[..n];
        LastValueAt(init, k);
        if LastValue(init, k).Some? {
          var i :| LastAt(init, k, i) && init[i].val == LastValue(init, k).value;
          assert LastAt(items, k, i);
        }
      }
    }
  }

  /** Item `i` has key `k` and no later item has. */
  predicate LastAt(items: seq<Entry>, k: string, i: int) {
    0 <= i < |items| && items[i].key == k && forall j :: i < j < |items| ==> items[j].key != k
  }

  lemma {:induction false} PutAllSnoc(d: seq<Entry>, items: seq<Entry>, x: Entry)
    ensures PutAll(d, items + [x]) == Put(PutAll(d, items), x)
    decreases items
  {
    if items == [] {
      assert items + [x] == [x];
    } else {
      assert (items + [x])[1..] == items[1..] + [x];
      PutAllSnoc(Put(d, items[0]), items[1..], x);
    }
  }

  lemma {:induction false} GetPut(d: seq<Entry>, e: Entry, k: string)
    ensures Get(Put(d, e), k) == if e.key == k then Some(e.val) else Get(d, k)
  {
    if d != [] && d[0].key != e.key {
      GetPut(d[1..], e, k);
    }
  }

  lemma {:induction false} PutKeyOrder(d: seq<Entry>, e: Entry)
    ensures EntryKeys(Put(d, e)) == if e.key in EntryKeys(d) then EntryKeys(d) else EntryKeys(d) + [e.key]
  {
    if d != [] {
      assert EntryKeys(d) == [d[0].key] + EntryKeys(d[1..]);
      if d[0].key == e.key {
        assert EntryKeys(Put(d, e)) == [e.key] + EntryKeys(d[1..]);
      } else {
        PutKeyOrder(d[1..], e);
        assert EntryKeys(Put(d, e)) == [d[0].key] + EntryKeys(Put(d[1..], e));
      }
    }
  }

  /** `dict(items)` keeps each key once, where its first item put it. */
  lemma {:induction false} ToDictOrder(items: seq<Entry>)
    ensures EntryKeys(ToDict(items)) == Unique(EntryKeys(items))
    decreases |items|
  {
    if items != [] {
      var init, x := items[..|items| - 1], items[|items| - 1];
      assert items == init + [x];
      ToDictOrder(init);
      PutAllSnoc([], init, x);
      PutKeyOrder(PutAll([], init), x);
      EntryKeysAppend(init, [x]);
      assert EntryKeys(items)[..|items| - 1] == EntryKeys(init);
    }
  }

  /** The value `dict(items)` holds for a key is that of the key's last item. */
  lemma {:induction false} ToDictLastWins(items: seq<Entry>, k: string)
    ensures Get(ToDict(items), k) == LastValue(items, k)
    decreases |items|
  {
    if items != [] {
      var init, x := items[..|items| - 1], items[|items| - 1];
      assert items == init + [x];
      ToDictLastWins(init, k);
      PutAllSnoc([], init, x);
      GetPut(PutAll([], init), x, k);
    }
  }

  /** Two items with one key give one entry holding the second value. */
  lemma ToDictDuplicateExample()
    ensures ToDict([Entry("a", Atom("1")), Entry("a", Atom("2"))]) == [Entry("a", Atom("2"))]
  {
  }

  // ------------------------------------------------------------------- flatten

  /** Line 89: `parent_key + sep + k if parent_key else k`. */
  function JoinKey(parent: string, k: string, sep: string): (r: string)
    ensures parent == "" ==> r == k
    ensures |r| == (if parent != "" then |parent| + |sep| else 0) + |k|
    ensures parent != "" ==> r[..|parent|] == parent && r[|parent|..|parent| + |sep|] == sep && r[|parent| + |sep|..] == k
  {
    if parent != "" then parent + sep + k else k
  }

  /** Lines 82-94, `flatten(d, parent_key, sep)`: the `items` list turned into a dict. */
  function Flatten(es: seq<Entry>, parent: string, sep: string): seq<Entry>
    decreases es, 1
  {
    ToDict(Items(es, parent, sep))
  }

  /** The `items` list the loop of lines 88-93 builds: a nested dict
      contributes the entries of its own flattening, anything else one entry
      under the joined key. */
  function Items(es: seq<Entry>, parent: string, sep: string): seq<Entry>
    decreases es, 0
  {
    if es == [] then []
    else
      (match es[0].val
       case Dict(sub) => Flatten(sub, JoinKey(parent, es[0].key, sep), sep)
       case _ => [Entry(JoinKey(parent, es[0].key, sep), es[0].val)])
      + Items(es[1..], parent, sep)
  }

  /** The reference reading of a flattening: every leaf (a value that is not a
      dict) under the path of keys leading to it, in tree order. */
  function LeafPaths(es: seq<Entry>, parent: string, sep: string): seq<Entry>
    decreases es
  {
    if es == [] then []
    else
      (match es[0].val
       case Dict(sub) => LeafPaths(sub, JoinKey(parent, es[0].key, sep), sep)
       case _ => [Entry(JoinKey(parent, es[0].key, sep), es[0].val)])
      + LeafPaths(es[1..], parent, sep)
  }

  lemma {:induction false} ItemsAppend(a: seq<Entry>, b: seq<Entry>, parent: string, sep: string)
    ensures Items(a + b, parent, sep) == Items(a, parent, sep) + Items(b, parent, sep)
  {
    if a == [] {
      assert a + b == b;
    } else {
      assert (a + b)[0] == a[0];
      assert (a + b)[1..] == a[1..] + b;
      ItemsAppend(a[1..], b, parent, sep);
    }
  }

  /** No value of a flattening is a dict. */
  lemma {:induction false} ItemsNoDict(es: seq<Entry>, parent: string, sep: string)
    ensures forall x :: x in Items(es, parent, sep) ==> !x.val.Dict?
    decreases es
  {
    if es != [] {
      ItemsNoDict(es[1..], parent, sep);
      match es[0].val {
        case Dict(sub) => ItemsNoDict(sub, JoinKey(parent, es[0].key, sep), sep);
        case _ =>
      }
    }
  }

  /** The keys of a flattening are the leaf paths. */
  lemma {:induction false} ItemsKeys(es: seq<Entry>, parent: string, sep: string)
    ensures forall k :: k in EntryKeys(Items(es, parent, sep)) <==> k in EntryKeys(LeafPaths(es, parent, sep))
    decreases es
  {
    if es != [] {
      var key := JoinKey(parent, es[0].key, sep);
      ItemsKeys(es[1..], parent, sep);
      match es[0].val {
        case Dict(sub) =>
          ItemsKeys(sub, key, sep);
          EntryKeysAppend(Flatten(sub, key, sep), Items(es[1..], parent, sep));
          EntryKeysAppend(LeafPaths(sub, key, sep), LeafPaths(es[1..], parent, sep));
        case _ =>
          EntryKeysAppend([Entry(key, es[0].val)], Items(es[1..], parent, sep));
          EntryKeysAppend([Entry(key, es[0].val)], LeafPaths(es[1..], parent, sep));
      }
    }
  }

  /** Every entry of a flattening is a leaf under its path. */
  lemma {:induction false} ItemsFromLeaves(es: seq<Entry>, parent: string, sep: string)
    ensures forall x :: x in Items(es, parent, sep) ==> x in LeafPaths(es, parent, sep)
    decreases es
  {
    if es != [] {
      ItemsFromLeaves(es[1..], parent, sep);
      match es[0].val {
        case Dict(sub) => ItemsFromLeaves(sub, JoinKey(parent, es[0].key, sep), sep);
        case _ =>
      }
    }
  }

  /** When no two leaves share a path, the flattening is exactly the leaves in tree order. */
  lemma {:induction false} ItemsAreLeaves(es: seq<Entry>, parent: string, sep: string)
    requires NoDuplicates(EntryKeys(LeafPaths(es, parent, sep)))
    ensures Items(es, parent, sep) == LeafPaths(es, parent, sep)
    decreases es
  {
    if es != [] {
      var key := JoinKey(parent, es[0].key, sep);
      var head := match es[0].val
        case Dict(sub) => LeafPaths(sub, key, sep)
        case _ => [Entry(key, es[0].val)];
      EntryKeysAppend(head, LeafPaths(es[1..], parent, sep));
      NoDuplicatesAppend(EntryKeys(head), EntryKeys(LeafPaths(es[1..], parent, sep)));
      ItemsAreLeaves(es[1..], parent, sep);
      match es[0].val {
        case Dict(sub) => ItemsAreLeaves(sub, key, sep);
        case _ =>
      }
    }
  }

  lemma NoDuplicatesAppend<T>(a: seq<T>, b: seq<T>)
    requires NoDuplicates(a + b)
    ensures NoDuplicates(a) && NoDuplicates(b)
  {
    forall i, j | 0 <= i < j < |a|
      ensures a[i] != a[j]
    {
      assert (a + b)[i] == a[i] && (a + b)[j] == a[j];
    }
    forall i, j | 0 <= i < j < |b|
      ensures b[i] != b[j]
    {
      assert (a + b)[|a| + i] == b[i] && (a + b)[|a| + j] == b[j];
    }
  }

  /** What `flatten` promises: no value is a dict, keys are unique and are
      exactly the leaf paths, each entry is a leaf under its path, and when
      no two leaf paths collide the result is the leaves in tree order. */
  lemma FlattenFacts(es: seq<Entry>, parent: string, sep: string)
    ensures var f := Flatten(es, parent, sep);
      && (forall x :: x in f ==> !x.val.Dict?)
      && NoDuplicates(EntryKeys(f))
      && (forall k :: k in EntryKeys(f) <==> k in EntryKeys(LeafPaths(es, parent, sep)))
      && (forall x :: x in f ==> x in LeafPaths(es, parent, sep))
      && (NoDuplicates(EntryKeys(LeafPaths(es, parent, sep))) ==> f == LeafPaths(es, parent, sep))
  {
    ItemsNoDict(es, parent, sep);
    ItemsKeys(es, parent, sep);
    ItemsFromLeaves(es, parent, sep);
    if NoDuplicates(EntryKeys(LeafPaths(es, parent, sep))) {
      ItemsAreLeaves(es, parent, sep);
    }
  }

  /** Top-level leaves keep their own key, with no separator. */
  lemma {:induction false} TopLevelLeaf(es: seq<Entry>, i: nat, sep: string)
    requires i < |es| && !es[i].val.Dict?
    ensures es[i].key in EntryKeys(Flatten(es, "", sep))
  {
    LeafUnderPath(es, i, "", sep);
    FlattenFacts(es, "", sep);
  }

  /** A leaf one level down sits under `key + sep + inner key`. */
  lemma NestedLeaf(es: seq<Entry>, i: nat, j: nat, sep: string)
    requires i < |es| && es[i].key != "" && es[i].val.Dict?
    requires j < |es[i].val.entries| && !es[i].val.entries[j].val.Dict?
    ensures es[i].key + sep + es[i].val.entries[j].key in EntryKeys(Flatten(es, "", sep))
  {
    var sub := es[i].val.entries;
    LeafUnderPath(sub, j, es[i].key, sep);
    SubLeaves(es, i, "", sep);
    FlattenFacts(es, "", sep);
  }

  /** A leaf entry appears among the leaf paths under its joined key. */
  lemma {:induction false} LeafUnderPath(es: seq<Entry>, i: nat, parent: string, sep: string)
    requires i < |es| && !es[i].val.Dict?
    ensures JoinKey(parent, es[i].key, sep) in EntryKeys(LeafPaths(es, parent, sep))
  {
    var rest := LeafPaths(es[1..], parent, sep);
    if i == 0 {
      EntryKeysAppend([Entry(JoinKey(parent, es[0].key, sep), es[0].val)], rest);
    } else {
      LeafUnderPath(es[1..], i - 1, parent, sep);
      var head := match es[0].val
        case Dict(sub) => LeafPaths(sub, JoinKey(parent, es[0].key, sep), sep)
        case _ => [Entry(JoinKey(parent, es[0].key, sep), es[0].val)];
      EntryKeysAppend(head, rest);
    }
  }

  /** The leaf paths of a nested dict are among those of its parent. */
  lemma {:induction false} SubLeaves(es: seq<Entry>, i: nat, parent: string, sep: string)
    requires i < |es| && es[i].val.Dict?
    ensures forall k :: k in EntryKeys(LeafPaths(es[i].val.entries, JoinKey(parent, es[i].key, sep), sep)) ==>
      k in EntryKeys(LeafPaths(es, parent, sep))
  {
    var rest := LeafPaths(es[1..], parent, sep);
    var head := match es[0].val
      case Dict(sub) => LeafPaths(sub, JoinKey(parent, es[0].key, sep), sep)
      case _ => [Entry(JoinKey(parent, es[0].key, sep), es[0].val)];
    EntryKeysAppend(head, rest);
    if i > 0 {
      SubLeaves(es[1..], i - 1, parent, sep);
    }
  }

  /** A key that no dict holds is not the path of any leaf, provided the
      separator's first character does not occur in it. */
  lemma {:induction false} LeafPathsAvoid(es: seq<Entry>, parent: string, sep: string, k: string)
    requires NoKeyIn(es, k) && sep != "" && sep[0] !in k
    ensures k !in EntryKeys(LeafPaths(es, parent, sep))
    decreases es
  {
    if es != [] {
      var key := JoinKey(parent, es[0].key, sep);
      assert key != k by {
        if parent != "" {
          assert key[|parent|] == sep[0];
        }
      }
      LeafPathsAvoid(es[1..], parent, sep, k);
      var head := match es[0].val
        case Dict(sub) => LeafPaths(sub, key, sep)
        case _ => [Entry(key, es[0].val)];
      EntryKeysAppend(head, LeafPaths(es[1..], parent, sep));
      match es[0].val {
        case Dict(sub) => LeafPathsAvoid(sub, key, sep, k);
        case _ =>
      }
    }
  }

  lemma ItemsOne(e: Entry, parent: string, sep: string)
    ensures Items([e], parent, sep) ==
      match e.val
      case Dict(sub) => Flatten(sub, JoinKey(parent, e.key, sep), sep)
      case _ => [Entry(JoinKey(parent, e.key, sep), e.val)]
  {
    assert [e][1..] == [];
  }

  lemma ItemsStep(d: seq<Entry>, i: int, parent: string, sep: string)
    requires 0 <= i < |d|
    ensures Items(d[..i + 1], parent, sep) == Items(d[..i], parent, sep) + Items([d[i]], parent, sep)
  {
    assert d[..i + 1] == d[..i] + [d[i]];
    ItemsAppend(d[..i], [d[i]], parent, sep);
  }

  /** The loop of lines 87-94: `items` grows by `extend` for a nested dict and
      by `append` for anything else, then becomes a dict. */
  method FlattenDict(d: seq<Entry>, parentKey: string, sep: string) returns (r: seq<Entry>)
    ensures r == Flatten(d, parentKey, sep)
    decreases d
  {
    var items: seq<Entry> := [];
    var i := 0;
    while i < |d|
      invariant 0 <= i <= |d|
      invariant items == Items(d[..i], parentKey, sep)
    {
      var e := d[i];
      var newKey := JoinKey(parentKey, e.key, sep);
      var piece: seq<Entry>;
      match e.val {
        case Dict(sub) =>
          piece := FlattenDict(sub, newKey, sep);
        case _ =>
          piece := [Entry(newKey, e.val)];
      }
      ItemsOne(e, parentKey, sep);
      ItemsStep(d, i, parentKey, sep);
      items := items + piece;
      i := i + 1;
    }
    assert d[..i] == d;
    r := ToDict(items);
  }

  // ------------------------------------------------------- create_df_from_req

  /** `d[key]` on a dict: the first entry with the key, or nothing. */
  function Get(es: seq<Entry>, key: string): (r: Option<Value>)
    ensures r.None? <==> key !in EntryKeys(es)
    ensures r.Some? ==> Entry(key, r.value) in es
  {
    if es == [] then None else if es[0].key == key then Some(es[0].val) else Get(es[1..], key)
  }

  /** The record list of a response, when it has the shape lines 143-147 can
      process: a dict whose 'records' is a list of dicts. */
  function RecordsOf(data: Value): Option<seq<seq<Entry>>> {
    if !data.Dict? then None
    else match Get(data.entries, "records")
      case None => None
      case Some(recs) =>
        if recs.List? && forall i :: 0 <= i < |recs.items| ==> recs.items[i].Dict?
        then Some(seq(|recs.items|, i requires 0 <= i < |recs.items| && recs.items[i].Dict? => recs.items[i].entries))
        else None
  }

  /** One converted record of line 146. */
  function Converted(rec: seq<Entry>): seq<Entry> {
    Flatten(RemoveIn(rec, "attributes"), "", ".")
  }

  /** Lines 139-148 without the DataFrame construction: one converted record
      per element of `data['records']`, in order; a response of any other
      shape is an error, as the source raises on it. */
  method CreateRecords(data: Value) returns (r: Result<seq<seq<Entry>>>)
    ensures r.Err? <==> RecordsOf(data).None?
    ensures r.Ok? ==> |r.value| == |RecordsOf(data).value|
    ensures r.Ok? ==> forall i :: 0 <= i < |r.value| ==> r.value[i] == Converted(RecordsOf(data).value[i])
  {
    if !data.Dict? {
      return Err("response is not a dict");
    }
    var recs := Get(data.entries, "records");
    if recs.None? {
      return Err("no 'records' in the response");
    }
    if !recs.value.List? {
      return Err("'records' is not a list");
    }
    var items := recs.value.items;
    var converted := ConvertAll(items);
    RecordsOfList(data, items);
    match converted {
      case None => r := Err("a record is not a dict");
      case Some(records) => r := Ok(records);
    }
  }

  /** The loop of lines 144-147: each record converted in turn; an element
      that is not a dict stops it, as `flatten` raises on it. */
  method ConvertAll(items: seq<Value>) returns (out: Option<seq<seq<Entry>>>)
    ensures out.None? <==> exists j :: 0 <= j < |items| && !items[j].Dict?
    ensures out.Some? ==> |out.value| == |items|
    ensures out.Some? ==> forall j :: 0 <= j < |items| ==> items[j].Dict? && out.value[j] == Converted(items[j].entries)
  {
    var records: seq<seq<Entry>> := [];
    var i := 0;
    while i < |items|
      invariant 0 <= i <= |items|
      invariant |records| == i
      invariant forall j :: 0 <= j < i ==> items[j].Dict? && records[j] == Converted(items[j].entries)
    {
      if !items[i].Dict? {
        return None;
      }
      var converted := ConvertRecord(items[i]);
      records := records + [converted];
      i := i + 1;
    }
    out := Some(records);
  }

  /** Line 146 on one record: `flatten(remove_a_key(r, 'attributes'))`. */
  method ConvertRecord(rec: Value) returns (converted: seq<Entry>)
    requires rec.Dict?
    ensures converted == Converted(rec.entries)
  {
    var stripped := RemoveAKey(rec, "attributes");
    converted := FlattenDict(stripped.entries, "", ".");
  }

  /** A response whose 'records' is a list has a record list exactly when
      every element is a dict, and then it lists their entries. */
  lemma RecordsOfList(data: Value, items: seq<Value>)
    requires data.Dict? && Get(data.entries, "records") == Some(List(items))
    ensures RecordsOf(data).None? <==> exists j :: 0 <= j < |items| && !items[j].Dict?
    ensures RecordsOf(data).Some? ==>
      |RecordsOf(data).value| == |items| && forall j :: 0 <= j < |items| ==> RecordsOf(data).value[j] == items[j].entries
  {
  }

  /** A converted record holds no dict, has unique keys, and has no key
      'attributes' at any depth. */
  lemma ConvertedFacts(rec: seq<Entry>)
    ensures var c := Converted(rec);
      && (forall x :: x in c ==> !x.val.Dict?)
      && NoDuplicates(EntryKeys(c))
      && "attributes" !in EntryKeys(c)
  {
    var stripped := RemoveIn(rec, "attributes");
    RemoveInGone(rec, "attributes");
    FlattenFacts(stripped, "", ".");
    LeafPathsAvoid(stripped, "", ".", "attributes");
  }
}
