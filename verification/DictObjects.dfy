/**
 Outputs as the program holds them: dicts are objects, and a nested write edits them in place
 (agent/canvas.py, `set_variable_param_value`). As long as no two outputs share a dict, this does what
 `Variables.WriteOutput` does to values.
 */
module DictObjects {
  import opened Wrappers
  import opened Dicts
  import opened Json
  import opened Variables

  // ----- memory -----

  /** A dict is held by its address; everything else, lists included, by its value. */
  datatype Cell = Scalar(value: Value) | Pointer(addr: nat)

  /** The dict objects; addresses from `next` on are free. */
  datatype Memory = Memory(dicts: map<nat, Dict<Cell>>, next: nat)

  ghost predicate Valid(m: Memory) {
    forall a :: a in m.dicts ==> a < m.next && UniqueKeys(m.dicts[a])
  }

  function New(m: Memory, cells: Dict<Cell>): Memory {
    Memory(m.dicts[m.next := cells], m.next + 1)
  }

  function Assign(m: Memory, a: nat, cells: Dict<Cell>): Memory {
    m.(dicts := m.dicts[a := cells])
  }

  // ----- the value a cell shows -----

  ghost predicate Shows(m: Memory, c: Cell, v: Value)
    decreases v, 1
  {
    if v.Obj? then c.Pointer? && c.addr in m.dicts && ShowsAll(m, m.dicts[c.addr], v.entries) else c == Scalar(v)
  }

  ghost predicate ShowsAll(m: Memory, cells: Dict<Cell>, entries: Entries)
    decreases Obj(entries), 0
  {
    |cells| == |entries| &&
    forall i :: 0 <= i < |entries| ==> cells[i].0 == entries[i].0 && Shows(m, cells[i].1, entries[i].1)
  }

  /** The dict at `a` is the one shown, or inside it. */
  ghost predicate Within(m: Memory, c: Cell, v: Value, a: nat)
    decreases v, 1
  {
    v.Obj? && c.Pointer? && c.addr in m.dicts && (a == c.addr || WithinAny(m, m.dicts[c.addr], v.entries, a))
  }

  ghost predicate WithinAny(m: Memory, cells: Dict<Cell>, entries: Entries, a: nat)
    decreases Obj(entries), 0
  {
    exists i :: 0 <= i < |entries| && i < |cells| && Within(m, cells[i].1, entries[i].1, a)
  }

  /** The two cells have no dict in common. */
  ghost predicate Separate(m: Memory, c: Cell, v: Value, d: Cell, w: Value)
  {
    forall a :: Within(m, c, v, a) ==> !Within(m, d, w, a)
  }

  /** No dict occurs twice inside the one shown. */
  ghost predicate IsTree(m: Memory, c: Cell, v: Value)
    decreases v, 1
  {
    v.Obj? && c.Pointer? && c.addr in m.dicts ==>
      IsForest(m, m.dicts[c.addr], v.entries) && !WithinAny(m, m.dicts[c.addr], v.entries, c.addr)
  }

  ghost predicate IsForest(m: Memory, cells: Dict<Cell>, entries: Entries)
    decreases Obj(entries), 0
  {
    && (forall i :: 0 <= i < |entries| && i < |cells| ==> IsTree(m, cells[i].1, entries[i].1))
    && forall i, j :: 0 <= i < j < |entries| && j < |cells| ==>
         Separate(m, cells[i].1, entries[i].1, cells[j].1, entries[j].1)
  }

  ghost predicate Kept(m: Memory, m': Memory, a: nat) {
    a in m.dicts && a in m'.dicts && m'.dicts[a] == m.dicts[a]
  }

  /** What is shown does not change when the dicts inside it do not. */
  lemma {:induction false} Unchanged(m: Memory, m': Memory, c: Cell, v: Value)
    requires Shows(m, c, v) && forall a :: Within(m, c, v, a) ==> Kept(m, m', a)
    ensures Shows(m', c, v)
    ensures forall a :: Within(m', c, v, a) <==> Within(m, c, v, a)
    ensures IsTree(m, c, v) ==> IsTree(m', c, v)
    decreases v, 1
  {
    if v.Obj? {
      var cells := m.dicts[c.addr];
      assert Within(m, c, v, c.addr);
      forall a | WithinAny(m, cells, v.entries, a) ensures Kept(m, m', a) {
        assert Within(m, c, v, a);
      }
      AllUnchanged(m, m', cells, v.entries);
    }
  }

  lemma {:induction false} AllUnchanged(m: Memory, m': Memory, cells: Dict<Cell>, entries: Entries)
    requires ShowsAll(m, cells, entries)
    requires forall a :: WithinAny(m, cells, entries, a) ==> Kept(m, m', a)
    ensures ShowsAll(m', cells, entries)
    ensures forall a :: WithinAny(m', cells, entries, a) <==> WithinAny(m, cells, entries, a)
    ensures forall i, a :: 0 <= i < |entries| ==>
              (Within(m', cells[i].1, entries[i].1, a) <==> Within(m, cells[i].1, entries[i].1, a))
    ensures IsForest(m, cells, entries) ==> IsForest(m', cells, entries)
    decreases Obj(entries), 0
  {
    forall i | 0 <= i < |entries|
      ensures Shows(m', cells[i].1, entries[i].1)
      ensures (IsTree(m, cells[i].1, entries[i].1) ==> IsTree(m', cells[i].1, entries[i].1))
      ensures forall a :: Within(m', cells[i].1, entries[i].1, a) <==> Within(m, cells[i].1, entries[i].1, a)
    {
      forall a | Within(m, cells[i].1, entries[i].1, a) ensures Kept(m, m', a) {
        assert WithinAny(m, cells, entries, a);
      }
      Unchanged(m, m', cells[i].1, entries[i].1);
    }
  }

  // ----- entries by key -----

  lemma {:induction false} ShownLookup(m: Memory, cells: Dict<Cell>, entries: Entries, key: string)
    requires ShowsAll(m, cells, entries)
    ensures Lookup(cells, key).Some? <==> Lookup(entries, key).Some?
    ensures Lookup(cells, key).Some? ==> Shows(m, Lookup(cells, key).value, Lookup(entries, key).value)
  {
    if entries != [] && entries[0].0 != key {
      ShownLookup(m, cells[1..], entries[1..], key);
    }
  }

  /** The cells show the entries, but for the one under `key`. */
  ghost predicate ShowsOthers(m: Memory, cells: Dict<Cell>, entries: Entries, key: string) {
    |cells| == |entries| &&
    forall i :: 0 <= i < |entries| ==>
      cells[i].0 == entries[i].0 && (cells[i].0 != key ==> Shows(m, cells[i].1, entries[i].1))
  }

  lemma {:induction false} BothPut(m: Memory, cells: Dict<Cell>, entries: Entries, key: string, c: Cell, v: Value)
    requires ShowsOthers(m, cells, entries, key) && UniqueKeys(cells)
    ensures var cs, es := Put(cells, key, c), Put(entries, key, v);
            && |cs| == |es|
            && forall i :: 0 <= i < |es| ==>
                 && cs[i].0 == es[i].0
                 && (if i < |cells| && cells[i].0 != key then cs[i] == cells[i] && es[i] == entries[i]
                     else cs[i].1 == c && es[i].1 == v)
  {
    SameKeys(cells, entries, key);
    PutIndex(cells, key, c);
    PutIndex(entries, key, v);
    hide Put, Lookup, Shows;
  }

  lemma {:induction false} SameKeys(cells: Dict<Cell>, entries: Entries, key: string)
    requires |cells| == |entries| && (forall i :: 0 <= i < |cells| ==> cells[i].0 == entries[i].0) && UniqueKeys(cells)
    ensures UniqueKeys(entries) && (Lookup(cells, key).Some? <==> Lookup(entries, key).Some?)
  {
    if cells != [] && cells[0].0 != key {
      SameKeys(cells[1..], entries[1..], key);
    }
  }

  lemma {:induction false} ShownPut(m: Memory, cells: Dict<Cell>, entries: Entries, key: string, c: Cell, v: Value)
    requires ShowsOthers(m, cells, entries, key) && UniqueKeys(cells) && Shows(m, c, v)
    ensures ShowsAll(m, Put(cells, key, c), Put(entries, key, v))
  {
    BothPut(m, cells, entries, key, c, v);
    hide Put, Shows;
  }

  /** A dict inside the new entries is inside an old one, or inside what was put. */
  lemma {:induction false} WithinPut(
      m: Memory, cells: Dict<Cell>, entries: Entries, key: string, c: Cell, v: Value, a: nat)
    requires ShowsOthers(m, cells, entries, key) && UniqueKeys(cells)
    requires WithinAny(m, Put(cells, key, c), Put(entries, key, v), a)
    ensures || Within(m, c, v, a)
            || exists i :: 0 <= i < |cells| && cells[i].0 != key && Within(m, cells[i].1, entries[i].1, a)
  {
    BothPut(m, cells, entries, key, c, v);
    hide Put, Shows, Within;
  }

  /** The entries but the one under `key` are trees with nothing in common, also with what is put. */
  ghost predicate ForestOthers(m: Memory, cells: Dict<Cell>, entries: Entries, key: string, c: Cell, v: Value)
    requires |cells| == |entries|
  {
    && (forall i :: 0 <= i < |entries| && cells[i].0 != key ==>
          IsTree(m, cells[i].1, entries[i].1) && Separate(m, c, v, cells[i].1, entries[i].1))
    && forall i, j :: 0 <= i < j < |entries| && cells[i].0 != key && cells[j].0 != key ==>
         Separate(m, cells[i].1, entries[i].1, cells[j].1, entries[j].1)
  }

  lemma {:induction false} ForestPut(m: Memory, cells: Dict<Cell>, entries: Entries, key: string, c: Cell, v: Value)
    requires ShowsOthers(m, cells, entries, key) && UniqueKeys(cells)
    requires IsTree(m, c, v) && ForestOthers(m, cells, entries, key, c, v)
    ensures IsForest(m, Put(cells, key, c), Put(entries, key, v))
  {
    BothPut(m, cells, entries, key, c, v);
    var cs, es := Put(cells, key, c), Put(entries, key, v);
    hide Put, Shows, Within, IsTree, Separate;
    forall i, j | 0 <= i < j < |es| && j < |cs| ensures Separate(m, cs[i].1, es[i].1, cs[j].1, es[j].1) {
      OnlyOnePut(cells, key, c, i, j);
      if !(i < |cells| && cells[i].0 != key) {
        assert cs[i].1 == c && es[i].1 == v && j < |cells| && cells[j].0 != key;
        assert cs[j] == cells[j] && es[j] == entries[j];
      } else if !(j < |cells| && cells[j].0 != key) {
        assert cs[j].1 == c && es[j].1 == v && cs[i] == cells[i] && es[i] == entries[i];
        SeparateIsMutual(m, c, v, cells[i].1, entries[i].1);
      } else {
        assert cs[i] == cells[i] && es[i] == entries[i] && cs[j] == cells[j] && es[j] == entries[j];
      }
    }
  }

  lemma {:induction false} OnlyOnePut(cells: Dict<Cell>, key: string, c: Cell, i: nat, j: nat)
    requires UniqueKeys(cells) && i < j < |Put(cells, key, c)|
    ensures (i < |cells| && cells[i].0 != key) || (j < |cells| && cells[j].0 != key)
  {
    PutIndex(cells, key, c);
    LookupFindsEntry(cells, key);
    hide Put, Lookup;
  }

  lemma {:induction false} SeparateIsMutual(m: Memory, c: Cell, v: Value, d: Cell, w: Value)
    requires Separate(m, c, v, d, w)
    ensures Separate(m, d, w, c, v)
  {
  }

  // ----- writing in place -----

  /** `set_variable_param_value`: the dict at `a` and those below it are edited; missing ones are new. */
  function Write(m: Memory, a: nat, keys: seq<string>, c: Cell): Memory
    requires a in m.dicts && keys != []
    decreases |keys|
  {
    var cells := m.dicts[a];
    if |keys| == 1 then Assign(m, a, Put(cells, keys[0], c))
    else
      var child: Option<Cell> := Lookup(cells, keys[0]);
      if child.Some? && child.value.Pointer? && child.value.addr in m.dicts then
        Write(m, child.value.addr, keys[1..], c)
      else Write(Assign(New(m, []), a, Put(cells, keys[0], Pointer(m.next))), m.next, keys[1..], c)
  }

  method SetParamValue(m: Memory, obj: nat, keys: seq<string>, c: Cell) returns (m': Memory)
    requires obj in m.dicts && keys != []
    ensures m' == Write(m, obj, keys, c)
  {
    m' := m;
    var cur := obj;
    assert keys[0..] == keys;
    for i := 0 to |keys| - 1
      invariant cur in m'.dicts && Write(m', cur, keys[i..], c) == Write(m, obj, keys, c)
    {
      assert keys[i..][0] == keys[i] && keys[i..][1..] == keys[i + 1..];
      var child: Option<Cell> := Lookup(m'.dicts[cur], keys[i]);
      if child.None? || !child.value.Pointer? || child.value.addr !in m'.dicts {
        var fresh' := m'.next;
        m' := Assign(New(m', []), cur, Put(m'.dicts[cur], keys[i], Pointer(fresh')));
        cur := fresh';
      } else {
        cur := child.value.addr;
      }
    }
    assert keys[|keys| - 1..] == [keys[|keys| - 1]];
    m' := Assign(m', cur, Put(m'.dicts[cur], keys[|keys| - 1], c));
  }

  /** What a write to the dict shown by `c` may change: that dict, those inside it, and new ones. */
  ghost predicate Frames(m: Memory, m': Memory, c: Cell, v: Value) {
    forall a :: a in m.dicts && !Within(m, c, v, a) ==> Kept(m, m', a)
  }

  /** A dict inside what is shown is one of the memory's. */
  lemma {:induction false} WithinIsHeld(m: Memory, c: Cell, v: Value, a: nat)
    requires Within(m, c, v, a)
    ensures a in m.dicts
    decreases v
  {
    if a != c.addr {
      var i :| 0 <= i < |v.entries| && i < |m.dicts[c.addr]| && Within(m, m.dicts[c.addr][i].1, v.entries[i].1, a);
      WithinIsHeld(m, m.dicts[c.addr][i].1, v.entries[i].1, a);
    }
  }

  // ----- a write below a dict -----

  /** The new memory shows the written value, still as a tree, and nothing else changed but free addresses. */
  ghost predicate Written(m: Memory, m': Memory, a: nat, entries: Entries, written: Entries, c: Cell, v: Value) {
    && Valid(m') && m.next <= m'.next
    && Shows(m', Pointer(a), Obj(written)) && IsTree(m', Pointer(a), Obj(written))
    && Frames(m, m', Pointer(a), Obj(entries))
    && forall x :: Within(m', Pointer(a), Obj(written), x) ==>
         Within(m, Pointer(a), Obj(entries), x) || Within(m, c, v, x) || m.next <= x
  }

  /** A value to write, apart from the dict it is written into. */
  ghost predicate Writable(m: Memory, a: nat, entries: Entries, c: Cell, v: Value) {
    && Valid(m) && Shows(m, Pointer(a), Obj(entries)) && IsTree(m, Pointer(a), Obj(entries))
    && Shows(m, c, v) && IsTree(m, c, v) && Separate(m, c, v, Pointer(a), Obj(entries))
  }

  /** The dicts inside the other entries stay, and none of them is inside `d`. */
  ghost predicate OthersKept(m: Memory, m': Memory, cells: Dict<Cell>, entries: Entries, key: string, d: Cell, w: Value)
    requires |cells| == |entries|
  {
    forall i, x :: 0 <= i < |entries| && entries[i].0 != key && Within(m, cells[i].1, entries[i].1, x) ==>
      Kept(m, m', x) && !Within(m', d, w, x)
  }

  /** A new entry among others that stay. */
  lemma {:induction false} PutAmong(
      m: Memory, m': Memory, cells: Dict<Cell>, entries: Entries, key: string, d: Cell, w: Value)
    requires ShowsAll(m, cells, entries) && IsForest(m, cells, entries) && UniqueKeys(cells)
    requires Shows(m', d, w) && IsTree(m', d, w) && OthersKept(m, m', cells, entries, key, d, w)
    ensures ShowsAll(m', Put(cells, key, d), Put(entries, key, w))
    ensures IsForest(m', Put(cells, key, d), Put(entries, key, w))
    ensures forall x :: WithinAny(m', Put(cells, key, d), Put(entries, key, w), x) ==>
              Within(m', d, w, x) || (WithinAny(m, cells, entries, x) && Kept(m, m', x))
  {
    OthersStay(m, m', cells, entries, key, d, w);
    forall i | 0 <= i < |entries| && cells[i].0 != key ensures Separate(m', d, w, cells[i].1, entries[i].1) {
      assert entries[i].0 != key;
    }
    ShownPut(m', cells, entries, key, d, w);
    ForestPut(m', cells, entries, key, d, w);
    hide Put, Shows, IsTree, Within;
    forall x | WithinAny(m', Put(cells, key, d), Put(entries, key, w), x)
      ensures Within(m', d, w, x) || (WithinAny(m, cells, entries, x) && Kept(m, m', x))
    {
      WithinPut(m', cells, entries, key, d, w, x);
      if !Within(m', d, w, x) {
        var i :| 0 <= i < |cells| && cells[i].0 != key && Within(m', cells[i].1, entries[i].1, x);
        assert Within(m, cells[i].1, entries[i].1, x);
      }
    }
  }

  lemma {:induction false} OthersStay(
      m: Memory, m': Memory, cells: Dict<Cell>, entries: Entries, key: string, d: Cell, w: Value)
    requires ShowsAll(m, cells, entries) && IsForest(m, cells, entries) && OthersKept(m, m', cells, entries, key, d, w)
    ensures ShowsOthers(m', cells, entries, key)
    ensures forall i, x :: 0 <= i < |entries| && entries[i].0 != key ==>
              (Within(m', cells[i].1, entries[i].1, x) <==> Within(m, cells[i].1, entries[i].1, x))
    ensures forall i :: 0 <= i < |entries| && entries[i].0 != key ==> IsTree(m', cells[i].1, entries[i].1)
    ensures forall i, j :: 0 <= i < j < |entries| && entries[i].0 != key && entries[j].0 != key ==>
              Separate(m', cells[i].1, entries[i].1, cells[j].1, entries[j].1)
  {
    forall i | 0 <= i < |entries| && entries[i].0 != key
      ensures Shows(m', cells[i].1, entries[i].1) && IsTree(m', cells[i].1, entries[i].1)
      ensures forall x :: Within(m', cells[i].1, entries[i].1, x) <==> Within(m, cells[i].1, entries[i].1, x)
    {
      Unchanged(m, m', cells[i].1, entries[i].1);
    }
    forall i, j | 0 <= i < j < |entries| && entries[i].0 != key && entries[j].0 != key
      ensures Separate(m', cells[i].1, entries[i].1, cells[j].1, entries[j].1)
    {
      assert Separate(m, cells[i].1, entries[i].1, cells[j].1, entries[j].1);
    }
  }

  /** A new entry in the dict at `a`, among others that stay. */
  lemma {:induction false} PutBelow(
      m: Memory, m': Memory, a: nat, entries: Entries, key: string, c: Cell, v: Value, d: Cell, w: Value)
    requires Writable(m, a, entries, c, v) && |m.dicts[a]| == |entries|
    requires Valid(m') && m.next <= m'.next && a in m'.dicts && m'.dicts[a] == Put(m.dicts[a], key, d)
    requires Shows(m', d, w) && IsTree(m', d, w) && !Within(m', d, w, a)
    requires OthersKept(m, m', m.dicts[a], entries, key, d, w)
    requires forall x :: Within(m', d, w, x) ==>
              Within(m, Pointer(a), Obj(entries), x) || Within(m, c, v, x) || m.next <= x
    requires Frames(m, m', Pointer(a), Obj(entries))
    ensures Written(m, m', a, entries, Put(entries, key, w), c, v)
  {
    PutAmong(m, m', m.dicts[a], entries, key, d, w);
    var es := Put(entries, key, w);
    hide Put;
    forall x | WithinAny(m', m'.dicts[a], es, x)
      ensures x != a && (Within(m, Pointer(a), Obj(entries), x) || Within(m, c, v, x) || m.next <= x)
    {
    }
  }

  lemma {:induction false} Opened(m: Memory, a: nat, entries: Entries)
    requires Shows(m, Pointer(a), Obj(entries))
    ensures a in m.dicts && ShowsAll(m, m.dicts[a], entries) && |m.dicts[a]| == |entries|
    ensures Within(m, Pointer(a), Obj(entries), a)
    ensures IsTree(m, Pointer(a), Obj(entries)) ==> IsForest(m, m.dicts[a], entries)
  {
  }

  /** Every dict inside an entry is inside the dict that has the entry, and is not that dict. */
  lemma {:induction false} InsideEntry(m: Memory, a: nat, entries: Entries, i: nat, x: nat)
    requires Shows(m, Pointer(a), Obj(entries)) && IsTree(m, Pointer(a), Obj(entries)) && i < |entries|
    requires |m.dicts[a]| == |entries| && Within(m, m.dicts[a][i].1, entries[i].1, x)
    ensures x != a && x in m.dicts && Within(m, Pointer(a), Obj(entries), x)
  {
    WithinIsHeld(m, m.dicts[a][i].1, entries[i].1, x);
    assert WithinAny(m, m.dicts[a], entries, x);
  }

  lemma {:induction false} WriteOne(m: Memory, a: nat, entries: Entries, key: string, c: Cell, v: Value)
    requires Writable(m, a, entries, c, v)
    ensures Written(m, Assign(m, a, Put(m.dicts[a], key, c)), a, entries, Put(entries, key, v), c, v)
  {
    var m' := Assign(m, a, Put(m.dicts[a], key, c));
    PutKeepsUnique(m.dicts[a], key, c);
    Opened(m, a, entries);
    assert !Within(m, c, v, a);
    forall x | Within(m, c, v, x) ensures Kept(m, m', x) {
      WithinIsHeld(m, c, v, x);
    }
    Unchanged(m, m', c, v);
    forall i, x | 0 <= i < |entries| && entries[i].0 != key && Within(m, m.dicts[a][i].1, entries[i].1, x)
      ensures Kept(m, m', x) && !Within(m', c, v, x)
    {
      InsideEntry(m, a, entries, i, x);
    }
    hide Put, Shows, IsTree;
    PutBelow(m, m', a, entries, key, c, v, c, v);
  }

  /** The entry under a key, if it is a dict. */
  lemma {:induction false} ChildShows(m: Memory, cells: Dict<Cell>, entries: Entries, key: string) returns (i: nat)
    requires ShowsAll(m, cells, entries) && Lookup(cells, key).Some? && Lookup(cells, key).value.Pointer?
    ensures i < |entries| && cells[i] == (key, Lookup(cells, key).value)
    ensures Lookup(entries, key) == Some(entries[i].1) && entries[i].0 == key
    ensures entries[i].1 == Obj(SubDict(entries, key))
  {
    i := FirstIndex(m, cells, entries, key);
  }

  lemma {:induction false} FirstIndex(m: Memory, cells: Dict<Cell>, entries: Entries, key: string) returns (i: nat)
    requires ShowsAll(m, cells, entries) && Lookup(cells, key).Some?
    ensures i < |entries| && cells[i] == (key, Lookup(cells, key).value) && Lookup(entries, key) == Some(entries[i].1)
    ensures entries[i].0 == key && Shows(m, cells[i].1, entries[i].1)
  {
    if cells[0].0 == key {
      i := 0;
    } else {
      var k := FirstIndex(m, cells[1..], entries[1..], key);
      i := k + 1;
    }
  }

  /** Where the dicts of the entry under a key and of the other entries are. */
  lemma {:induction false} ChildPlaces(m: Memory, cells: Dict<Cell>, entries: Entries, key: string, b: nat)
    requires ShowsAll(m, cells, entries) && IsForest(m, cells, entries) && Lookup(cells, key) == Some(Pointer(b))
    ensures Shows(m, Pointer(b), Obj(SubDict(entries, key))) && IsTree(m, Pointer(b), Obj(SubDict(entries, key)))
    ensures forall x :: Within(m, Pointer(b), Obj(SubDict(entries, key)), x) ==> WithinAny(m, cells, entries, x)
    ensures forall i, x :: 0 <= i < |entries| && entries[i].0 != key && Within(m, cells[i].1, entries[i].1, x) ==>
              x in m.dicts && WithinAny(m, cells, entries, x) && !Within(m, Pointer(b), Obj(SubDict(entries, key)), x)
  {
    var k := ChildShows(m, cells, entries, key);
    var child := SubDict(entries, key);
    assert cells[k].1 == Pointer(b) && entries[k].1 == Obj(child);
    assert Shows(m, cells[k].1, entries[k].1) && IsTree(m, cells[k].1, entries[k].1);
    hide Shows, IsTree, Lookup, Within, SubDict;
    forall i, x | 0 <= i < |entries| && entries[i].0 != key && Within(m, cells[i].1, entries[i].1, x)
      ensures x in m.dicts && WithinAny(m, cells, entries, x) && !Within(m, Pointer(b), Obj(child), x)
    {
      WithinIsHeld(m, cells[i].1, entries[i].1, x);
      if i < k {
        assert Separate(m, cells[i].1, entries[i].1, cells[k].1, entries[k].1);
      } else {
        assert Separate(m, cells[k].1, entries[k].1, cells[i].1, entries[i].1);
      }
    }
  }

  lemma {:induction false} InsideDict(m: Memory, a: nat, entries: Entries)
    requires Shows(m, Pointer(a), Obj(entries)) && IsTree(m, Pointer(a), Obj(entries))
    ensures forall x :: WithinAny(m, m.dicts[a], entries, x) ==> x != a && Within(m, Pointer(a), Obj(entries), x)
  {
  }

  /** The step into a dict that is there. */
  lemma {:induction false} WriteInto(
      m: Memory, m': Memory, a: nat, entries: Entries, key: string, b: nat, written: Entries, c: Cell, v: Value)
    requires Writable(m, a, entries, c, v) && Lookup(m.dicts[a], key) == Some(Pointer(b))
    requires Writable(m, b, SubDict(entries, key), c, v) && Written(m, m', b, SubDict(entries, key), written, c, v)
    ensures Written(m, m', a, entries, Put(entries, key, Obj(written)), c, v)
  {
    hide Put, Shows, IsTree, Lookup, Within, SubDict;
    Opened(m, a, entries);
    InsideDict(m, a, entries);
    var cells := m.dicts[a];
    ChildPlaces(m, cells, entries, key, b);
    PutSame(cells, key);
    assert !Within(m, c, v, a) && Kept(m, m', a);
    forall i, x | 0 <= i < |entries| && entries[i].0 != key && Within(m, cells[i].1, entries[i].1, x)
      ensures Kept(m, m', x) && !Within(m', Pointer(b), Obj(written), x)
    {
      assert !Within(m, c, v, x);
    }
    PutBelow(m, m', a, entries, key, c, v, Pointer(b), Obj(written));
  }

  lemma {:induction false} ChildIsWritable(m: Memory, a: nat, entries: Entries, key: string, b: nat, c: Cell, v: Value)
    requires Writable(m, a, entries, c, v) && Lookup(m.dicts[a], key) == Some(Pointer(b))
    ensures Writable(m, b, SubDict(entries, key), c, v)
  {
    hide Shows, IsTree, Lookup, Within, SubDict;
    Opened(m, a, entries);
    InsideDict(m, a, entries);
    ChildPlaces(m, m.dicts[a], entries, key, b);
  }

  /** The step into a new dict. */
  lemma {:induction false} WriteNew(
      m: Memory, m': Memory, a: nat, entries: Entries, key: string, written: Entries, c: Cell, v: Value)
    requires Writable(m, a, entries, c, v)
    requires var m1 := Assign(New(m, []), a, Put(m.dicts[a], key, Pointer(m.next)));
             Writable(m1, m.next, [], c, v) && Written(m1, m', m.next, [], written, c, v)
    ensures Written(m, m', a, entries, Put(entries, key, Obj(written)), c, v)
  {
    var n, cells := m.next, m.dicts[a];
    var m1 := Assign(New(m, []), a, Put(cells, key, Pointer(n)));
    assert a != n;
    assert forall x :: Within(m1, Pointer(n), Obj([]), x) ==> x == n;
    Opened(m, a, entries);
    assert !Within(m, c, v, a);
    forall x | Within(m, c, v, x) ensures Kept(m, m1, x) {
      WithinIsHeld(m, c, v, x);
    }
    Unchanged(m, m1, c, v);
    assert Kept(m1, m', a);
    forall x | x in m.dicts && x != a ensures Kept(m, m', x) {
      assert Kept(m1, m', x);
    }
    forall i, x | 0 <= i < |entries| && entries[i].0 != key && Within(m, cells[i].1, entries[i].1, x)
      ensures Kept(m, m', x) && !Within(m', Pointer(n), Obj(written), x)
    {
      InsideEntry(m, a, entries, i, x);
      assert !Within(m, c, v, x);
    }
    forall x | Within(m', Pointer(n), Obj(written), x) ensures Within(m, c, v, x) || n <= x {
    }
    hide Put, Shows, IsTree, Lookup;
    PutBelow(m, m', a, entries, key, c, v, Pointer(n), Obj(written));
  }

  lemma {:induction false} NewIsWritable(m: Memory, a: nat, entries: Entries, key: string, c: Cell, v: Value)
    requires Writable(m, a, entries, c, v)
    ensures Writable(Assign(New(m, []), a, Put(m.dicts[a], key, Pointer(m.next))), m.next, [], c, v)
  {
    var m1 := Assign(New(m, []), a, Put(m.dicts[a], key, Pointer(m.next)));
    PutKeepsUnique(m.dicts[a], key, Pointer(m.next));
    Opened(m, a, entries);
    assert !Within(m, c, v, a);
    forall x: nat | Within(m, c, v, x) ensures Kept(m, m1, x) && x < m.next {
      WithinIsHeld(m, c, v, x);
    }
    Unchanged(m, m1, c, v);
    hide Put;
    assert Shows(m1, Pointer(m.next), Obj([])) && IsTree(m1, Pointer(m.next), Obj([]));
    assert forall x :: Within(m1, Pointer(m.next), Obj([]), x) ==> x == m.next;
  }

  /** Editing in place shows what writing to the value gives, and changes no other dict. */
  lemma {:induction false} WriteShows(m: Memory, a: nat, entries: Entries, keys: seq<string>, c: Cell, v: Value)
    requires Writable(m, a, entries, c, v) && keys != []
    ensures Written(m, Write(m, a, keys, c), a, entries, WriteAt(entries, keys, v), c, v)
    decreases |keys|
  {
    var key, cells := keys[0], m.dicts[a];
    WriteAtUnfolds(entries, keys, v);
    hide WriteAt, Shows, IsTree, Written, Writable;
    if |keys| == 1 {
      WriteOne(m, a, entries, key, c, v);
    } else {
      var child: Option<Cell> := Lookup(cells, key);
      ChildKind(m, a, entries, key, c, v);
      if child.Some? && child.value.Pointer? {
        var b := child.value.addr;
        ChildIsWritable(m, a, entries, key, b, c, v);
        WriteShows(m, b, SubDict(entries, key), keys[1..], c, v);
        WriteInto(m, Write(m, b, keys[1..], c), a, entries, key, b, WriteAt(SubDict(entries, key), keys[1..], v), c, v);
      } else {
        var m1 := Assign(New(m, []), a, Put(cells, key, Pointer(m.next)));
        NewIsWritable(m, a, entries, key, c, v);
        WriteShows(m1, m.next, [], keys[1..], c, v);
        WriteNew(m, Write(m1, m.next, keys[1..], c), a, entries, key, WriteAt([], keys[1..], v), c, v);
      }
    }
  }

  lemma {:induction false} ChildKind(m: Memory, a: nat, entries: Entries, key: string, c: Cell, v: Value)
    requires Writable(m, a, entries, c, v)
    ensures var child: Option<Cell> := Lookup(m.dicts[a], key);
            if child.Some? && child.value.Pointer? then child.value.addr in m.dicts else SubDict(entries, key) == []
  {
    ShownLookup(m, m.dicts[a], entries, key);
  }

  // ----- a component's outputs -----

  /** `not root_val` */
  predicate IsFalsyCell(m: Memory, c: Cell) {
    match c
    case Scalar(v) => IsFalsy(v)
    case Pointer(a) => a in m.dicts && m.dicts[a] == []
  }

  /**
   `set_variable_value` below a component: an empty output gives way to a new dict, any other dict is
   edited; the dict of all outputs is new and has the outputs' own cells in it.
   */
  function SetOutput(
      m: Memory, outs: Dict<Cell>, root: string, keys: seq<string>, c: Cell): Result<(Memory, Dict<Cell>), Failure> {
    if keys == [] then Ok((m, Put(outs, root, c)))
    else if root == "" then Ok((Write(New(m, outs), m.next, keys, c), Put(outs, root, Pointer(m.next))))
    else
      var before := match Lookup(outs, root) case None => Scalar(Str("")) case Some(d) => d;
      if IsFalsyCell(m, before) then Ok((Write(New(m, []), m.next, keys, c), Put(outs, root, Pointer(m.next))))
      else if before.Pointer? && before.addr in m.dicts then
        Ok((Write(m, before.addr, keys, c), Put(outs, root, before)))
      else Err(NotADict)
  }

  /** The outputs show the entries, and share no dict. */
  ghost predicate Outputs(m: Memory, outs: Dict<Cell>, entries: Entries) {
    Valid(m) && UniqueKeys(outs) && ShowsAll(m, outs, entries) && IsForest(m, outs, entries)
  }

  /** A value to write, apart from all outputs. */
  ghost predicate Fits(m: Memory, outs: Dict<Cell>, entries: Entries, c: Cell, v: Value) {
    && Outputs(m, outs, entries) && Shows(m, c, v) && IsTree(m, c, v)
    && forall x :: Within(m, c, v, x) ==> !WithinAny(m, outs, entries, x)
  }

  /** The new outputs show the new entries, and no dict of anything else changed. */
  ghost predicate Updated(
      m: Memory, m': Memory, outs: Dict<Cell>, entries: Entries, outs': Dict<Cell>, entries': Entries) {
    && Valid(m') && UniqueKeys(outs') && ShowsAll(m', outs', entries')
    && forall x :: x in m.dicts && !WithinAny(m, outs, entries, x) ==> Kept(m, m', x)
  }

  /** A dict for one output, as old memory sees it: inside that output, inside the value, or new. */
  lemma {:induction false} PutOutput(
      m: Memory, m': Memory, outs: Dict<Cell>, entries: Entries, root: string, c: Cell, v: Value, d: Cell, w: Value)
    requires Fits(m, outs, entries, c, v) && Valid(m') && Shows(m', d, w) && IsTree(m', d, w)
    requires OthersKept(m, m', outs, entries, root, d, w)
    requires forall x :: x in m.dicts && !WithinAny(m, outs, entries, x) ==> Kept(m, m', x)
    ensures Updated(m, m', outs, entries, Put(outs, root, d), Put(entries, root, w))
    ensures Outputs(m', Put(outs, root, d), Put(entries, root, w))
  {
    PutKeepsUnique(outs, root, d);
    hide Put, Shows, IsTree;
    PutAmong(m, m', outs, entries, root, d, w);
  }

  /** A new dict, written to and put among the outputs. */
  lemma {:induction false} SetNew(
      m: Memory, outs: Dict<Cell>, entries: Entries, root: string, keys: seq<string>, c: Cell, v: Value)
    requires Fits(m, outs, entries, c, v) && keys != []
    ensures var m', written := Write(New(m, []), m.next, keys, c), Obj(WriteAt([], keys, v));
            && Updated(m, m', outs, entries, Put(outs, root, Pointer(m.next)), Put(entries, root, written))
            && Outputs(m', Put(outs, root, Pointer(m.next)), Put(entries, root, written))
  {
    var n, m1 := m.next, New(m, []);
    forall x: nat | Within(m, c, v, x) ensures Kept(m, m1, x) && x < n {
      WithinIsHeld(m, c, v, x);
    }
    Unchanged(m, m1, c, v);
    assert Shows(m1, Pointer(n), Obj([])) && IsTree(m1, Pointer(n), Obj([]));
    assert forall x :: Within(m1, Pointer(n), Obj([]), x) ==> x == n;
    WriteShows(m1, n, [], keys, c, v);
    var m', written := Write(m1, n, keys, c), WriteAt([], keys, v);
    hide Put, Shows, IsTree, Within, Write, WriteAt;
    forall x | x in m.dicts ensures Kept(m, m', x) {
      assert Kept(m, m1, x) && Kept(m1, m', x);
    }
    forall i, x | 0 <= i < |entries| && entries[i].0 != root && Within(m, outs[i].1, entries[i].1, x)
      ensures Kept(m, m', x) && !Within(m', Pointer(n), Obj(written), x)
    {
      WithinIsHeld(m, outs[i].1, entries[i].1, x);
      assert WithinAny(m, outs, entries, x);
    }
    PutOutput(m, m', outs, entries, root, c, v, Pointer(n), Obj(written));
  }

  /** An output that is a dict, edited in place. */
  lemma {:induction false} SetDict(
      m: Memory, outs: Dict<Cell>, entries: Entries, root: string, a: nat, keys: seq<string>, c: Cell, v: Value)
    requires Fits(m, outs, entries, c, v) && keys != [] && Lookup(outs, root) == Some(Pointer(a))
    ensures a in m.dicts
    ensures var m', written := Write(m, a, keys, c), Obj(WriteAt(SubDict(entries, root), keys, v));
            && Updated(m, m', outs, entries, Put(outs, root, Pointer(a)), Put(entries, root, written))
            && Outputs(m', Put(outs, root, Pointer(a)), Put(entries, root, written))
  {
    hide Put, Shows, IsTree, Within, WriteAt, Lookup, SubDict;
    var child := SubDict(entries, root);
    ChildPlaces(m, outs, entries, root, a);
    Opened(m, a, child);
    WriteShows(m, a, child, keys, c, v);
    var m', written := Write(m, a, keys, c), WriteAt(child, keys, v);
    forall i, x | 0 <= i < |entries| && entries[i].0 != root && Within(m, outs[i].1, entries[i].1, x)
      ensures Kept(m, m', x) && !Within(m', Pointer(a), Obj(written), x)
    {
    }
    PutOutput(m, m', outs, entries, root, c, v, Pointer(a), Obj(written));
  }

  // ----- the dict of all outputs -----

  /** The new dict of all outputs is a tree over the outputs' own dicts. */
  lemma {:induction false} Collected(m: Memory, outs: Dict<Cell>, entries: Entries, c: Cell, v: Value)
    requires Fits(m, outs, entries, c, v)
    ensures Writable(New(m, outs), m.next, entries, c, v)
    ensures forall x :: WithinAny(New(m, outs), outs, entries, x) <==> WithinAny(m, outs, entries, x)
    ensures ShowsAll(New(m, outs), outs, entries) && IsForest(New(m, outs), outs, entries)
  {
    var d, m1 := m.next, New(m, outs);
    forall x: nat | WithinAny(m, outs, entries, x) ensures Kept(m, m1, x) && x < d {
      var i :| 0 <= i < |entries| && i < |outs| && Within(m, outs[i].1, entries[i].1, x);
      WithinIsHeld(m, outs[i].1, entries[i].1, x);
    }
    AllUnchanged(m, m1, outs, entries);
    forall x: nat | Within(m, c, v, x) ensures Kept(m, m1, x) && x < d {
      WithinIsHeld(m, c, v, x);
    }
    Unchanged(m, m1, c, v);
    assert m1.dicts[d] == outs && !WithinAny(m1, outs, entries, d);
    assert Shows(m1, Pointer(d), Obj(entries)) && IsTree(m1, Pointer(d), Obj(entries));
    forall x | Within(m1, c, v, x) ensures !Within(m1, Pointer(d), Obj(entries), x) {
      assert Within(m, c, v, x);
    }
  }

  /** A write below the dict of all outputs leaves all outputs but the one under its first key. */
  lemma {:induction false} WriteKeepsOthers(m: Memory, a: nat, entries: Entries, keys: seq<string>, c: Cell, v: Value)
    requires Writable(m, a, entries, c, v) && keys != []
    ensures a in m.dicts && |m.dicts[a]| == |entries|
    ensures forall i, x :: 0 <= i < |entries| && Within(m, m.dicts[a][i].1, entries[i].1, x)
                           && (entries[i].0 != keys[0] || |keys| == 1 || !Descends(entries, keys[0])) ==>
              Kept(m, Write(m, a, keys, c), x)
    ensures |keys| >= 2 && Descends(entries, keys[0]) ==> Kept(m, Write(m, a, keys, c), a)
  {
    Opened(m, a, entries);
    InsideDict(m, a, entries);
    ChildKind(m, a, entries, keys[0], c, v);
    var key, cells, m' := keys[0], m.dicts[a], Write(m, a, keys, c);
    ShownLookup(m, cells, entries, key);
    var child: Option<Cell> := Lookup(cells, key);
    forall i, x | 0 <= i < |entries| && Within(m, cells[i].1, entries[i].1, x) ensures x in m.dicts && x != a {
      WithinIsHeld(m, cells[i].1, entries[i].1, x);
      assert WithinAny(m, cells, entries, x);
    }
    if |keys| >= 2 {
      if child.Some? && child.value.Pointer? {
        var b := child.value.addr;
        ChildIsWritable(m, a, entries, key, b, c, v);
        WriteShows(m, b, SubDict(entries, key), keys[1..], c, v);
        ChildPlaces(m, cells, entries, key, b);
        hide Shows, IsTree, Within, Lookup, Put, SubDict, WriteAt;
        assert m' == Write(m, b, keys[1..], c);
      } else {
        var m1 := Assign(New(m, []), a, Put(cells, key, Pointer(m.next)));
        NewIsWritable(m, a, entries, key, c, v);
        WriteShows(m1, m.next, [], keys[1..], c, v);
        assert forall x :: Within(m1, Pointer(m.next), Obj([]), x) ==> x == m.next;
        hide Shows, IsTree, Within, Lookup, Put, SubDict, WriteAt;
        assert m' == Write(m1, m.next, keys[1..], c);
        forall x | x in m.dicts && x != a ensures Kept(m, m', x) {
          assert Kept(m, m1, x) && Kept(m1, m', x);
        }
      }
    }
  }

  /** The entry under `key` is a dict. */
  predicate Descends(entries: Entries, key: string) {
    Lookup(entries, key).Some? && Lookup(entries, key).value.Obj?
  }

  lemma {:induction false} SetCollection(
      m: Memory, outs: Dict<Cell>, entries: Entries, keys: seq<string>, c: Cell, v: Value)
    requires Fits(m, outs, entries, c, v) && keys != []
    ensures Updated(m, Write(New(m, outs), m.next, keys, c), outs, entries,
                    Put(outs, "", Pointer(m.next)), WriteOutput(entries, "", keys, v).value)
  {
    var d, m1, all := m.next, New(m, outs), WriteAt(entries, keys, v);
    var m' := Write(m1, d, keys, c);
    Collected(m, outs, entries, c, v);
    WriteShows(m1, d, entries, keys, c, v);
    WriteKeepsOthers(m1, d, entries, keys, c, v);
    InsideDict(m1, d, entries);
    PutKeepsUnique(outs, "", Pointer(d));
    hide Shows, IsTree, Within, Put, WriteAt, Write, Lookup;
    forall x | x in m.dicts && !WithinAny(m, outs, entries, x) ensures Kept(m, m', x) {
      NotInside(m1, d, entries, x);
      assert Kept(m, m1, x) && Kept(m1, m', x);
    }
    if ReachesOutput(entries, keys) {
      Opened(m', d, all);
      assert m'.dicts[d] == outs;
      ShownPut(m', outs, all, "", Pointer(d), Obj(all));
    } else {
      forall i | 0 <= i < |entries| && outs[i].0 != "" ensures Shows(m', outs[i].1, entries[i].1) {
        Unchanged(m1, m', outs[i].1, entries[i].1);
      }
      ShownPut(m', outs, entries, "", Pointer(d), Obj(all));
    }
  }

  lemma {:induction false} NotInside(m: Memory, a: nat, entries: Entries, x: nat)
    requires a in m.dicts && x != a && !WithinAny(m, m.dicts[a], entries, x)
    ensures !Within(m, Pointer(a), Obj(entries), x)
  {
  }

  // ----- main results -----

  /**
   Setting an output in memory fails exactly when writing to the value does; otherwise the outputs
   show the written value, and no dict outside them has changed. A write to a named output also keeps
   the outputs from sharing dicts; an anonymous one stores a collection that shares them.
   */
  lemma {:induction false} SetShows(
      m: Memory, outs: Dict<Cell>, entries: Entries, root: string, keys: seq<string>, c: Cell, v: Value)
    requires Fits(m, outs, entries, c, v)
    ensures SetOutput(m, outs, root, keys, c).Err? <==> WriteOutput(entries, root, keys, v).Err?
    ensures SetOutput(m, outs, root, keys, c).Ok? ==>
              var (m', outs') := SetOutput(m, outs, root, keys, c).value;
              var entries' := WriteOutput(entries, root, keys, v).value;
              && Updated(m, m', outs, entries, outs', entries')
              && (root != "" || keys == [] ==> Outputs(m', outs', entries'))
  {
    if keys == [] {
      SetWhole(m, outs, entries, root, c, v);
    } else if root == "" {
      SetCollection(m, outs, entries, keys, c, v);
    } else {
      ShownLookup(m, outs, entries, root);
      var before := match Lookup(outs, root) case None => Scalar(Str("")) case Some(d) => d;
      var value := OutputOf(entries, root);
      assert Shows(m, before, value);
      assert IsFalsyCell(m, before) <==> IsFalsy(value);
      SetNew(m, outs, entries, root, keys, c, v);
      if before.Pointer? {
        SetDict(m, outs, entries, root, before.addr, keys, c, v);
      }
      hide Put, WriteAt, Write, Updated, Outputs, Fits;
    }
  }

  lemma {:induction false} SetWhole(m: Memory, outs: Dict<Cell>, entries: Entries, root: string, c: Cell, v: Value)
    requires Fits(m, outs, entries, c, v)
    ensures Updated(m, m, outs, entries, Put(outs, root, c), Put(entries, root, v))
    ensures Outputs(m, Put(outs, root, c), Put(entries, root, v))
  {
    forall i, x | 0 <= i < |entries| && entries[i].0 != root && Within(m, outs[i].1, entries[i].1, x)
      ensures Kept(m, m, x) && !Within(m, c, v, x)
    {
      WithinIsHeld(m, outs[i].1, entries[i].1, x);
      assert WithinAny(m, outs, entries, x);
    }
    hide Put, Shows, IsTree, Within;
    PutOutput(m, m, outs, entries, root, c, v, c, v);
  }

  /** So what another component shows, without a dict in common, stays. */
  lemma {:induction false} OthersUntouched(m: Memory, m': Memory, outs: Dict<Cell>, entries: Entries,
                                           outs': Dict<Cell>, entries': Entries, d: Cell, w: Value)
    requires Updated(m, m', outs, entries, outs', entries') && Shows(m, d, w)
    requires forall x :: Within(m, d, w, x) ==> !WithinAny(m, outs, entries, x)
    ensures Shows(m', d, w)
  {
    forall x | Within(m, d, w, x) ensures Kept(m, m', x) {
      WithinIsHeld(m, d, w, x);
    }
    Unchanged(m, m', d, w);
  }

  /** But whoever holds the same dict as a named output sees every nested write to that output. */
  lemma {:induction false} SharersSeeTheWrite(
      m: Memory, outs: Dict<Cell>, entries: Entries, root: string, a: nat, keys: seq<string>, c: Cell, v: Value)
    requires Fits(m, outs, entries, c, v) && root != "" && keys != [] && Lookup(outs, root) == Some(Pointer(a))
    requires SubDict(entries, root) != []
    ensures Shows(m, Pointer(a), Obj(SubDict(entries, root)))
    ensures SetOutput(m, outs, root, keys, c).Ok?
    ensures Shows(SetOutput(m, outs, root, keys, c).value.0, Pointer(a), Obj(WriteAt(SubDict(entries, root), keys, v)))
  {
    ChildPlaces(m, outs, entries, root, a);
    Opened(m, a, SubDict(entries, root));
    hide Shows, IsTree, Within, Put, WriteAt, SubDict;
    WriteShows(m, a, SubDict(entries, root), keys, c, v);
  }
}
