/**
 Dotted variable references (agent/canvas.py, `get_variable_value` and `set_variable_value`):
 `name` for a global, `component@output.key.key` for a place inside a component's output.
 */
module Variables {
  import opened Wrappers
  import opened Dicts
  import opened Json
  import opened Text

  // ----- references -----

  datatype Reference = Global(name: string) | Output(component: string, root: string, rest: string)

  function Parse(exp: string): Reference {
    var bare := Strip(Strip(Strip(Strip(Strip(exp, '{'), '}'), ' '), '{'), '}');
    var at := IndexOf(bare, '@');
    if at == |bare| then Global(bare)
    else
      var name := bare[at + 1..];
      var dot := IndexOf(name, '.');
      Output(bare[..at], name[..dot], if dot == |name| then "" else name[dot + 1..])
  }

  function Keys(r: Reference): seq<string>
    requires r.Output?
  {
    if r.rest == "" then [] else Split(r.rest, '.')
  }

  // ----- reading inside a value -----

  /** What the model does not define: `json.loads`, `int(key)`, and `getattr` on other values. */
  datatype Host =
    Host(loads: string -> Option<Value>, toInt: string -> Option<int>, attribute: (Value, string) -> Value)

  function Element(items: seq<Value>, index: Option<int>): Value {
    match index
    case None => Null
    case Some(i) =>
      if 0 <= i < |items| then items[i] else if -|items| <= i < 0 then items[|items| + i] else Null
  }

  /** Indices count from the front, or from the back if they are negative; out of range there is nothing. */
  lemma {:induction false} ElementLaws(items: seq<Value>, v: Value, i: nat)
    ensures Element(items + [v], Some(-1)) == v && Element([v] + items, Some(0)) == v
    ensures Element([v] + items, Some(i + 1)) == Element(items, Some(i))
    ensures Element(items + [v], Some(-2 - i)) == Element(items, Some(-1 - i))
    ensures Element([], Some(i)) == Element([], Some(-1 - i)) == Element(items, None) == Null
  {
  }

  function Member(host: Host, v: Value, key: string): Value {
    match v
    case Obj(entries) => (match Lookup(entries, key) case None => Null case Some(w) => w)
    case Arr(items) => Element(items, host.toInt(key))
    case _ => host.attribute(v, key)
  }

  /** One turn of the loop; leaving it with None is the same as carrying None on. */
  function Descend(host: Host, v: Value, key: string): Value {
    match v
    case Null => Null
    case Str(text) => (match host.loads(text) case None => Null case Some(w) => Member(host, w, key))
    case _ => Member(host, v, key)
  }

  function ReadAt(host: Host, v: Value, keys: seq<string>): Value
    decreases |keys|
  {
    if keys == [] then v else ReadAt(host, Descend(host, v, keys[0]), keys[1..])
  }

  // ----- writing inside a dict -----

  function SubDict(entries: Entries, key: string): Entries {
    var child: Option<Value> := Lookup(entries, key);
    if child.Some? && child.value.Obj? then child.value.entries else []
  }

  function WriteAt(entries: Entries, keys: seq<string>, value: Value): Entries
    requires keys != []
    decreases |keys|
  {
    if |keys| == 1 then Put(entries, keys[0], value)
    else Put(entries, keys[0], Obj(WriteAt(SubDict(entries, keys[0]), keys[1..], value)))
  }

  // ----- lens laws for nested dicts -----

  lemma {:induction false} ReadWritten(host: Host, entries: Entries, keys: seq<string>, value: Value)
    requires keys != []
    ensures ReadAt(host, Obj(WriteAt(entries, keys, value)), keys) == value
    decreases |keys|
  {
    var child := SubDict(entries, keys[0]);
    if |keys| == 1 {
      LookupPut(entries, keys[0], value, keys[0]);
      assert keys[1..] == [];
    } else {
      LookupPut(entries, keys[0], Obj(WriteAt(child, keys[1..], value)), keys[0]);
      ReadWritten(host, child, keys[1..], value);
    }
  }

  lemma {:induction false} WriteTwice(entries: Entries, keys: seq<string>, value: Value, value': Value)
    requires keys != []
    ensures WriteAt(WriteAt(entries, keys, value), keys, value') == WriteAt(entries, keys, value')
    decreases |keys|
  {
    var key, child := keys[0], SubDict(entries, keys[0]);
    if |keys| == 1 {
      PutPut(entries, key, value, value');
    } else {
      var inner := WriteAt(child, keys[1..], value);
      LookupPut(entries, key, Obj(inner), key);
      WriteTwice(child, keys[1..], value, value');
      PutPut(entries, key, Obj(inner), Obj(WriteAt(child, keys[1..], value')));
    }
  }

  /** `keys` and `others` part after `k` common keys. */
  ghost predicate PartAt(keys: seq<string>, others: seq<string>, k: nat) {
    k < |keys| && k < |others| && keys[..k] == others[..k] && keys[k] != others[k]
  }

  /** Down to depth `k` along `keys`, every node is a dict, null or absent. */
  ghost predicate DictSpine(entries: Entries, keys: seq<string>, k: nat)
    requires k <= |keys|
    decreases k
  {
    k == 0 ||
    var child := Lookup(entries, keys[0]);
    (child.None? || child.value.Null? || child.value.Obj?) && DictSpine(SubDict(entries, keys[0]), keys[1..], k - 1)
  }

  lemma {:induction false} ReadNull(host: Host, keys: seq<string>)
    ensures ReadAt(host, Null, keys) == Null
  {
    if keys != [] {
      ReadNull(host, keys[1..]);
    }
  }

  lemma {:induction false} ReadElsewhere(
      host: Host, entries: Entries, keys: seq<string>, value: Value, others: seq<string>, k: nat)
    requires PartAt(keys, others, k) && DictSpine(entries, keys, k)
    ensures ReadAt(host, Obj(WriteAt(entries, keys, value)), others) == ReadAt(host, Obj(entries), others)
    decreases k
  {
    var key, child := keys[0], SubDict(entries, keys[0]);
    if k == 0 {
      var written := if |keys| == 1 then value else Obj(WriteAt(child, keys[1..], value));
      LookupPut(entries, key, written, others[0]);
    } else {
      assert keys[..k][0] == others[..k][0];
      assert keys[1..][..k - 1] == keys[..k][1..] && others[1..][..k - 1] == others[..k][1..];
      var inner := WriteAt(child, keys[1..], value);
      LookupPut(entries, key, Obj(inner), key);
      ReadElsewhere(host, child, keys[1..], value, others[1..], k - 1);
      hide WriteAt;
      assert ReadAt(host, Obj(Put(entries, key, Obj(inner))), others) == ReadAt(host, Obj(inner), others[1..]);
      if !Lookup(entries, key).Some? || !Lookup(entries, key).value.Obj? {
        ReadNull(host, others[1..]);
        BlankReadsNull(host, others[1..]);
      }
    }
  }

  /** Where the spine leaves the dicts, the write replaces what is there, and nothing else is found below it. */
  lemma {:induction false} OffSpineReadsNull(
      host: Host, entries: Entries, keys: seq<string>, value: Value, others: seq<string>, k: nat)
    requires PartAt(keys, others, k) && !DictSpine(entries, keys, k)
    ensures ReadAt(host, Obj(WriteAt(entries, keys, value)), others) == Null
    decreases k
  {
    var key, child := keys[0], SubDict(entries, keys[0]);
    assert keys[..k][0] == others[..k][0];
    assert keys[1..][..k - 1] == keys[..k][1..] && others[1..][..k - 1] == others[..k][1..];
    LookupPut(entries, key, Obj(WriteAt(child, keys[1..], value)), key);
    if DictSpine(child, keys[1..], k - 1) {
      ReadElsewhere(host, child, keys[1..], value, others[1..], k - 1);
      assert child == [];
      BlankReadsNull(host, others[1..]);
    } else {
      OffSpineReadsNull(host, child, keys[1..], value, others[1..], k - 1);
    }
  }

  /**
   A path that parts from the written one reads the same exactly when it parts below dicts, or there
   was nothing to read.
   */
  lemma {:induction false} ReadElsewhereIff(
      host: Host, entries: Entries, keys: seq<string>, value: Value, others: seq<string>, k: nat)
    requires PartAt(keys, others, k)
    ensures ReadAt(host, Obj(WriteAt(entries, keys, value)), others) == ReadAt(host, Obj(entries), others)
       <==> DictSpine(entries, keys, k) || ReadAt(host, Obj(entries), others) == Null
  {
    if DictSpine(entries, keys, k) {
      ReadElsewhere(host, entries, keys, value, others, k);
    } else {
      OffSpineReadsNull(host, entries, keys, value, others, k);
    }
  }

  lemma {:induction false} PartOnce(keys: seq<string>, others: seq<string>, k: nat, k': nat)
    requires PartAt(keys, others, k) && PartAt(keys, others, k')
    ensures k == k'
  {
    assert forall i :: 0 <= i < k ==> keys[i] == keys[..k][i] && others[i] == others[..k][i];
    assert forall i :: 0 <= i < k' ==> keys[i] == keys[..k'][i] && others[i] == others[..k'][i];
  }

  lemma {:induction false} BlankReadsNull(host: Host, keys: seq<string>)
    requires keys != []
    ensures ReadAt(host, Obj([]), keys) == Null
  {
    ReadNull(host, keys[1..]);
  }

  // ----- the variable store -----

  datatype Store = Store(globals: map<string, Value>, outputs: map<string, Entries>)

  /** The failures name the variable that is missing, as the raised errors do. */
  datatype Failure = NoSuchGlobal(name: string) | NoSuchComponent(reference: Reference) | NotADict

  /** `output(name)`: every output for an empty name, "" for an absent one. */
  function OutputOf(entries: Entries, root: string): Value {
    if root == "" then Obj(entries)
    else match Lookup(entries, root) case None => Str("") case Some(v) => v
  }

  function ReadOutput(host: Host, entries: Entries, root: string, keys: seq<string>): Value {
    ReadAt(host, OutputOf(entries, root), keys)
  }

  /** Below the first key the write edits an output's own dict, not a copy. */
  predicate ReachesOutput(entries: Entries, keys: seq<string>) {
    |keys| >= 2 && keys[0] != "" && Lookup(entries, keys[0]).Some? && Lookup(entries, keys[0]).value.Obj?
  }

  /**
   The write to one component's outputs; an empty output is replaced by an empty dict first. The dict
   of all outputs, which an anonymous reference gets, is new, but holds the outputs themselves.
   */
  function WriteOutput(entries: Entries, root: string, keys: seq<string>, value: Value): Result<Entries, Failure> {
    if keys == [] then Ok(Put(entries, root, value))
    else if root == "" then
      var all := WriteAt(entries, keys, value);
      Ok(Put(if ReachesOutput(entries, keys) then all else entries, "", Obj(all)))
    else
      var before := OutputOf(entries, root);
      var dict := if IsFalsy(before) then Obj([]) else before;
      if dict.Obj? then Ok(Put(entries, root, Obj(WriteAt(dict.entries, keys, value)))) else Err(NotADict)
  }

  function GetVariable(host: Host, s: Store, exp: string): Result<Value, Failure> {
    var r := Parse(exp);
    match r
    case Global(name) => if name in s.globals then Ok(s.globals[name]) else Err(NoSuchGlobal(name))
    case Output(component, root, _) =>
      if component !in s.outputs then Err(NoSuchComponent(r))
      else Ok(ReadOutput(host, s.outputs[component], root, Keys(r)))
  }

  function SetVariable(s: Store, exp: string, value: Value): Result<Store, Failure> {
    var r := Parse(exp);
    match r
    case Global(name) => Ok(s.(globals := s.globals[name := value]))
    case Output(component, root, _) =>
      if component !in s.outputs then Err(NoSuchComponent(r))
      else match WriteOutput(s.outputs[component], root, Keys(r), value)
           case Ok(entries) => Ok(s.(outputs := s.outputs[component := entries]))
           case Err(e) => Err(e)
  }

  /** The reference names an output, not the anonymous collection of all outputs. */
  predicate IsNamed(exp: string) {
    Parse(exp).Output? ==> Parse(exp).root != ""
  }

  // ----- the laws for one component's outputs -----

  lemma {:induction false} OutputGetAfterSet(
      host: Host, entries: Entries, root: string, keys: seq<string>, value: Value)
    requires root != "" && WriteOutput(entries, root, keys, value).Ok?
    ensures ReadOutput(host, WriteOutput(entries, root, keys, value).value, root, keys) == value
  {
    var before := OutputOf(entries, root);
    var dict := if IsFalsy(before) then Obj([]) else before;
    hide OutputOf, WriteAt, Put, Lookup, IsFalsy;
    var written := if keys == [] then value else Obj(WriteAt(dict.entries, keys, value));
    OutputPut(entries, root, written, root);
    if keys != [] {
      ReadWritten(host, dict.entries, keys, value);
    }
  }

  lemma {:induction false} OutputPut(entries: Entries, root: string, value: Value, other: string)
    requires other != ""
    ensures OutputOf(Put(entries, root, value), other) == if other == root then value else OutputOf(entries, other)
  {
    LookupPut(entries, root, value, other);
  }

  lemma {:induction false} OutputSetAfterSet(
      entries: Entries, root: string, keys: seq<string>, value: Value, value': Value)
    requires root != "" && WriteOutput(entries, root, keys, value).Ok?
    ensures WriteOutput(WriteOutput(entries, root, keys, value).value, root, keys, value')
         == WriteOutput(entries, root, keys, value')
  {
    var before := OutputOf(entries, root);
    var dict := if IsFalsy(before) then Obj([]) else before;
    if keys == [] {
      PutPut(entries, root, value, value');
    } else {
      var first := WriteAt(dict.entries, keys, value);
      WriteNonEmpty(dict.entries, keys, value);
      OutputPut(entries, root, Obj(first), root);
      WriteTwice(dict.entries, keys, value, value');
      hide OutputOf, WriteAt, Put, Lookup;
      PutPut(entries, root, Obj(first), Obj(WriteAt(dict.entries, keys, value')));
    }
  }

  lemma {:induction false} OutputFrame(
      host: Host, entries: Entries, root: string, keys: seq<string>, value: Value, others: seq<string>, k: nat)
    requires HostRejectsBlank(host) && root != "" && WriteOutput(entries, root, keys, value).Ok?
    requires PartAt(keys, others, k)
    ensures ReadOutput(host, WriteOutput(entries, root, keys, value).value, root, others)
         == ReadOutput(host, entries, root, others)
       <==> PartsAtDict(OutputOf(entries, root), keys, k) || ReadOutput(host, entries, root, others) == Null
  {
    var before := OutputOf(entries, root);
    var dict := if IsFalsy(before) then Obj([]) else before;
    hide OutputOf, WriteAt, Put, Lookup;
    OutputPut(entries, root, Obj(WriteAt(dict.entries, keys, value)), root);
    if before.Obj? {
      ReadElsewhereIff(host, dict.entries, keys, value, others, k);
    } else {
      EmptySpine(keys, k);
      ReadElsewhere(host, [], keys, value, others, k);
      BlankReadsNull(host, others);
      if PartsAtDict(before, keys, k) {
        BlankRootReadsNull(host, before, others);
      }
    }
  }

  /** A write to a named output is a write to the dict of all outputs. */
  lemma {:induction false} WriteOutputIsWriteAt(entries: Entries, root: string, keys: seq<string>, value: Value)
    requires root != "" && WriteOutput(entries, root, keys, value).Ok?
    ensures WriteOutput(entries, root, keys, value).value == WriteAt(entries, [root] + keys, value)
  {
    assert ([root] + keys)[1..] == keys;
    hide WriteAt;
    assert keys == [] ==> WriteAt(entries, [root] + keys, value) == Put(entries, root, value) by {
      WriteAtUnfolds(entries, [root] + keys, value);
    }
    WriteAtUnfolds(entries, [root] + keys, value);
  }

  lemma {:induction false} WriteAtUnfolds(entries: Entries, keys: seq<string>, value: Value)
    requires keys != []
    ensures WriteAt(entries, keys, value)
         == Put(entries, keys[0],
                if |keys| == 1 then value else Obj(WriteAt(SubDict(entries, keys[0]), keys[1..], value)))
  {
  }

  /** Where a write to an output lands in the dict of all outputs. */
  function Place(root: string, keys: seq<string>): seq<string> {
    if root == "" then [""] else [root] + keys
  }

  /** The same for a read through the dict of all outputs. */
  lemma {:induction false} CollectionFrame(
      host: Host, entries: Entries, root: string, keys: seq<string>, value: Value, others: seq<string>, k: nat)
    requires WriteOutput(entries, root, keys, value).Ok? && PartAt(Place(root, keys), others, k)
    requires root == "" ==> !ReachesOutput(entries, keys)
    ensures ReadOutput(host, WriteOutput(entries, root, keys, value).value, "", others)
         == ReadOutput(host, entries, "", others)
       <==> DictSpine(entries, Place(root, keys), k) || ReadOutput(host, entries, "", others) == Null
  {
    if root != "" {
      WriteOutputIsWriteAt(entries, root, keys, value);
      ReadElsewhereIff(host, entries, [root] + keys, value, others, k);
      hide WriteAt, WriteOutput, DictSpine;
    } else {
      var after := WriteOutput(entries, root, keys, value).value;
      var written := if keys == [] then value else Obj(WriteAt(entries, keys, value));
      assert after == Put(entries, "", written);
      hide WriteAt, WriteOutput;
      LookupPut(entries, "", written, others[0]);
    }
  }

  // ----- main results -----

  /** Reading after writing gives the value written. */
  lemma {:induction false} GetAfterSet(host: Host, s: Store, exp: string, value: Value)
    requires IsNamed(exp) && SetVariable(s, exp, value).Ok?
    ensures GetVariable(host, SetVariable(s, exp, value).value, exp) == Ok(value)
  {
    var r := Parse(exp);
    hide Parse, Keys, WriteOutput, ReadOutput;
    if r.Output? {
      OutputGetAfterSet(host, s.outputs[r.component], r.root, Keys(r), value);
    }
  }

  /** A second write to the same reference overwrites the first without a trace. */
  lemma {:induction false} SetAfterSet(s: Store, exp: string, value: Value, value': Value)
    requires IsNamed(exp) && SetVariable(s, exp, value).Ok?
    ensures SetVariable(SetVariable(s, exp, value).value, exp, value') == SetVariable(s, exp, value')
  {
    var r := Parse(exp);
    hide Parse, Keys, WriteOutput;
    if r.Output? {
      OutputSetAfterSet(s.outputs[r.component], r.root, Keys(r), value, value');
      var first, second := WriteOutput(s.outputs[r.component], r.root, Keys(r),
          value), WriteOutput(s.outputs[r.component], r.root, Keys(r), value');
      if second.Ok? {
        assert s.outputs[r.component := first.value][r.component := second.value]
            == s.outputs[r.component := second.value];
      }
    } else {
      assert s.globals[r.name := value][r.name := value'] == s.globals[r.name := value'];
    }
  }

  lemma {:induction false} WriteNonEmpty(entries: Entries, keys: seq<string>, value: Value)
    requires keys != []
    ensures WriteAt(entries, keys, value) != []
  {
    hide SubDict;
    PutNonEmpty(entries, keys[0], value);
    if |keys| > 1 {
      PutNonEmpty(entries, keys[0], Obj(WriteAt(SubDict(entries, keys[0]), keys[1..], value)));
    }
  }

  lemma PutNonEmpty(entries: Entries, key: string, value: Value)
    ensures Put(entries, key, value) != []
  {
  }

  /** `json.loads("")` fails. */
  ghost predicate HostRejectsBlank(host: Host) {
    host.loads("").None?
  }

  /** The output that a write edits: the named one, or the one that an anonymous write reaches. */
  function EditedRoot(entries: Entries, root: string, keys: seq<string>): string {
    if root == "" && ReachesOutput(entries, keys) then keys[0] else root
  }

  function EditedKeys(entries: Entries, root: string, keys: seq<string>): seq<string> {
    if root == "" && ReachesOutput(entries, keys) then keys[1..] else keys
  }

  /** The read goes past the collection that an anonymous write stores under the empty name. */
  predicate PassesCollection(root: string, root': string, others: seq<string>) {
    root == "" && root' == "" ==> others != [] && others[0] != ""
  }

  ghost predicate ApartIn(root: string, keys: seq<string>, root': string, others: seq<string>) {
    if root' == "" then exists k :: PartAt(Place(root, keys), others, k)
    else root != root' || exists k :: PartAt(keys, others, k)
  }

  /** The two references name different places: neither is inside the other. */
  ghost predicate Apart(s: Store, r: Reference, q: Reference) {
    match (r, q)
    case (Global(name), Global(name')) => name != name'
    case (Output(c, root, _), Output(c', root', _)) =>
      c in s.outputs && c == c' ==>
        && PassesCollection(root, root', Keys(q))
        && ApartIn(EditedRoot(s.outputs[c], root, Keys(r)), EditedKeys(s.outputs[c], root, Keys(r)), root', Keys(q))
    case _ => true
  }

  ghost predicate BelowDictsIn(entries: Entries, root: string, keys: seq<string>, root': string, others: seq<string>) {
    if root' == "" then exists k :: PartAt(Place(root, keys), others, k) && DictSpine(entries, Place(root, keys), k)
    else root != root' || exists k :: PartAt(keys, others, k) && PartsAtDict(OutputOf(entries, root), keys, k)
  }

  /** Where they part, every node above is a dict, null or absent. */
  ghost predicate PartBelowDicts(s: Store, r: Reference, q: Reference) {
    r.Output? && q.Output? && r.component == q.component && r.component in s.outputs ==>
      var entries := s.outputs[r.component];
      BelowDictsIn(entries, EditedRoot(entries, r.root, Keys(r)), EditedKeys(entries, r.root, Keys(r)), q.root, Keys(q))
  }

  ghost predicate PartsAtDict(root: Value, keys: seq<string>, k: nat)
    requires k <= |keys|
  {
    root.Null? || root == Str("") || root == Arr([]) || (root.Obj? && DictSpine(root.entries, keys, k))
  }

  /**
   A write leaves a reference to another place reading what it read before exactly when the two part
   below dicts, or there was nothing to read.
   */
  lemma {:induction false} SetFrame(host: Host, s: Store, exp: string, value: Value, other: string)
    requires HostRejectsBlank(host) && SetVariable(s, exp, value).Ok? && Apart(s, Parse(exp), Parse(other))
    ensures GetVariable(host, SetVariable(s, exp, value).value, other) == GetVariable(host, s, other)
       <==> PartBelowDicts(s, Parse(exp), Parse(other)) || GetVariable(host, s, other) == Ok(Null)
  {
    var r, q := Parse(exp), Parse(other);
    hide Parse, Keys, ReadOutput, WriteOutput, ApartIn, BelowDictsIn, EditedRoot, EditedKeys;
    if r.Output? && q.Output? && r.component == q.component {
      OutputsFrame(host, s.outputs[r.component], r.root, Keys(r), value, q.root, Keys(q));
    }
  }

  /** The frame law for one component's outputs, wherever the write lands. */
  lemma {:induction false} OutputsFrame(
      host: Host, entries: Entries, root: string, keys: seq<string>, value: Value, root': string, others: seq<string>)
    requires HostRejectsBlank(host) && WriteOutput(entries, root, keys, value).Ok?
    requires PassesCollection(root, root', others)
    requires ApartIn(EditedRoot(entries, root, keys), EditedKeys(entries, root, keys), root', others)
    ensures ReadOutput(host, WriteOutput(entries, root, keys, value).value, root', others)
         == ReadOutput(host, entries, root', others)
       <==> || BelowDictsIn(entries, EditedRoot(entries, root, keys), EditedKeys(entries, root, keys), root', others)
            || ReadOutput(host, entries, root', others) == Null
  {
    hide WriteOutput, ReadOutput, ApartIn, BelowDictsIn;
    if root == "" && ReachesOutput(entries, keys) {
      AnonymousEdits(host, entries, keys, value, root', others);
      DirectFrame(host, entries, keys[0], keys[1..], value, root', others);
    } else {
      DirectFrame(host, entries, root, keys, value, root', others);
    }
  }

  lemma {:induction false} DirectFrame(
      host: Host, entries: Entries, root: string, keys: seq<string>, value: Value, root': string, others: seq<string>)
    requires HostRejectsBlank(host) && WriteOutput(entries, root, keys, value).Ok? && ApartIn(root, keys, root', others)
    requires root == "" ==> !ReachesOutput(entries, keys)
    ensures ReadOutput(host, WriteOutput(entries, root, keys, value).value, root', others)
         == ReadOutput(host, entries, root', others)
       <==> BelowDictsIn(entries, root, keys, root', others) || ReadOutput(host, entries, root', others) == Null
  {
    hide ReadOutput, WriteOutput, DictSpine, PartsAtDict, Place;
    if root' == "" {
      var k :| PartAt(Place(root, keys), others, k);
      forall k' | PartAt(Place(root, keys), others, k') ensures k' == k {
        PartOnce(Place(root, keys), others, k, k');
      }
      CollectionFrame(host, entries, root, keys, value, others, k);
    } else if root == root' {
      var k :| PartAt(keys, others, k);
      forall k' | PartAt(keys, others, k') ensures k' == k {
        PartOnce(keys, others, k, k');
      }
      OutputFrame(host, entries, root, keys, value, others, k);
    } else {
      OutputElsewhere(host, entries, root, keys, value, root', others);
    }
  }

  /** For every read past the collection, the anonymous write does what the write to the reached output does. */
  lemma {:induction false} AnonymousEdits(
      host: Host, entries: Entries, keys: seq<string>, value: Value, root': string, others: seq<string>)
    requires ReachesOutput(entries, keys) && (root' == "" ==> others != [] && others[0] != "")
    ensures WriteOutput(entries, keys[0], keys[1..], value).Ok?
    ensures ReadOutput(host, WriteOutput(entries, "", keys, value).value, root', others)
         == ReadOutput(host, WriteOutput(entries, keys[0], keys[1..], value).value, root', others)
  {
    WriteOutputIsWriteAt(entries, keys[0], keys[1..], value);
    assert [keys[0]] + keys[1..] == keys;
    var all := WriteAt(entries, keys, value);
    assert WriteOutput(entries, "", keys, value).value == Put(all, "", Obj(all));
    hide WriteOutput, WriteAt;
    if root' == "" {
      FirstKeyPasses(host, all, Obj(all), others);
    } else {
      OutputPut(all, "", Obj(all), root');
    }
  }

  lemma {:induction false} OutputElsewhere(
      host: Host, entries: Entries, root: string, keys: seq<string>, value: Value, other: string, others: seq<string>)
    requires other != "" && other != root && WriteOutput(entries, root, keys, value).Ok?
    requires root == "" ==> !ReachesOutput(entries, keys)
    ensures ReadOutput(host, WriteOutput(entries, root, keys, value).value, other, others)
         == ReadOutput(host, entries, other, others)
  {
    var before := OutputOf(entries, root);
    var dict := if IsFalsy(before) then Obj([]) else before;
    var written :=
      if keys == [] then value
      else if root == "" then Obj(WriteAt(entries, keys, value))
      else Obj(WriteAt(dict.entries, keys, value));
    assert WriteOutput(entries, root, keys, value).value == Put(entries, root, written);
    hide OutputOf, WriteAt, Put, Lookup, ReadAt, WriteOutput;
    OutputPut(entries, root, written, other);
  }

  lemma {:induction false} EmptySpine(keys: seq<string>, k: nat)
    requires k <= |keys|
    ensures DictSpine([], keys, k)
  {
    if k > 0 {
      EmptySpine(keys[1..], k - 1);
    }
  }

  lemma {:induction false} BlankRootReadsNull(host: Host, root: Value, keys: seq<string>)
    requires HostRejectsBlank(host) && keys != [] && (root.Null? || root == Str("") || root == Arr([]))
    ensures ReadAt(host, root, keys) == ReadAt(host, Obj([]), keys)
  {
    ReadNull(host, keys[1..]);
  }

  /** A write fails exactly on an unknown component or below an output that is neither a dict nor empty. */
  lemma {:induction false} SetFailsIff(s: Store, exp: string, value: Value)
    ensures SetVariable(s, exp, value).Err? <==>
              var r := Parse(exp);
              && r.Output?
              && (r.component !in s.outputs
                  || (var before := OutputOf(s.outputs[r.component], r.root);
                      r.rest != "" && !IsFalsy(before) && !before.Obj?))
  {
  }

  // ----- the anonymous output -----

  /** A value is never an entry of itself. */
  lemma {:induction false} NotItsOwnEntry(v: Value, i: nat)
    requires v.Obj? && i < |v.entries|
    ensures v.entries[i].1 != v
  {
  }

  lemma {:induction false} NotItsOwnValue(entries: Entries, key: string, value: Value)
    ensures value != Obj(Put(entries, key, value))
  {
    var v := Obj(Put(entries, key, value));
    LookupPut(entries, key, value, key);
    LookupFindsEntry(v.entries, key);
    var i :| 0 <= i < |v.entries| && v.entries[i] == (key, value);
    NotItsOwnEntry(v, i);
  }

  /** How many keys are empty before the first that is not. */
  function Blanks(keys: seq<string>): (n: nat)
    ensures n <= |keys| && (n < |keys| ==> keys[n] != "") && forall i :: 0 <= i < n ==> keys[i] == ""
  {
    if keys == [] || keys[0] != "" then 0 else 1 + Blanks(keys[1..])
  }

  /** The outputs with a copy of themselves under the empty name, which is what an anonymous write starts from. */
  function WithCopy(entries: Entries): Entries {
    Put(entries, "", Obj(entries))
  }

  lemma {:induction false} AnonymousWrite(entries: Entries, keys: seq<string>, value: Value)
    requires keys != [] && !ReachesOutput(entries, keys)
    ensures WriteOutput(entries, "", keys, value) == Ok(Put(entries, "", Obj(WriteAt(entries, keys, value))))
    ensures WriteOutput(entries, "", keys, value).value == WriteAt(WithCopy(entries), [""] + keys, value)
  {
    LookupPut(entries, "", Obj(entries), "");
    PutPut(entries, "", Obj(entries), Obj(WriteAt(entries, keys, value)));
    WriteAtUnfolds(WithCopy(entries), [""] + keys, value);
    hide WriteAt;
    assert ([""] + keys)[1..] == keys;
    assert SubDict(WithCopy(entries), "") == entries;
  }

  /**
   What an anonymous reference reads after a write to it, whatever the value: it parts from where
   the write landed.
   */
  ghost function ReadPast(host: Host, entries: Entries, keys: seq<string>): Value
    requires Blanks(keys) < |keys|
  {
    if DictSpine(WithCopy(entries), [""] + keys, Blanks(keys)) then ReadAt(host, Obj(WithCopy(entries)), keys) else Null
  }

  lemma {:induction false} OnePastBlanks(keys: seq<string>)
    requires Blanks(keys) < |keys|
    ensures PartAt([""] + keys, keys, Blanks(keys))
  {
    var n, longer := Blanks(keys), [""] + keys;
    forall i | 0 <= i <= n ensures longer[i] == "" {
      assert i > 0 ==> longer[i] == keys[i - 1];
    }
    assert forall i :: 0 <= i < n ==> longer[..n][i] == "" && keys[..n][i] == "";
  }

  /** Through empty keys alone, the read stops one dict above the value. */
  lemma {:induction false} StopsAbove(host: Host, entries: Entries, keys: seq<string>, value: Value)
    requires Blanks(keys) == |keys|
    ensures ReadAt(host, Obj(WriteAt(entries, [""] + keys, value)), keys) != value
    decreases |keys|
  {
    WriteAtUnfolds(entries, [""] + keys, value);
    assert ([""] + keys)[1..] == keys;
    if keys == [] {
      NotItsOwnValue(entries, "", value);
    } else {
      var inner := WriteAt(SubDict(entries, ""), keys, value);
      assert keys == [""] + keys[1..];
      LookupPut(entries, "", Obj(inner), "");
      hide WriteAt;
      assert Blanks(keys[1..]) == |keys[1..]|;
      StopsAbove(host, SubDict(entries, ""), keys[1..], value);
    }
  }

  lemma {:induction false} AnonymousReadBack(host: Host, entries: Entries, keys: seq<string>, value: Value)
    requires !ReachesOutput(entries, keys)
    ensures WriteOutput(entries, "", keys, value).Ok?
    ensures ReadOutput(host, WriteOutput(entries, "", keys, value).value, "", keys) == value
       <==> Blanks(keys) < |keys| && ReadPast(host, entries, keys) == value
    ensures keys != [] && keys[0] != "" ==>
              var after := WriteOutput(entries, "", keys, value).value;
              ReadOutput(host, after, "", keys) == ReadOutput(host, entries, "", keys)
  {
    if keys == [] {
      NotItsOwnValue(entries, "", value);
    } else {
      AnonymousWrite(entries, keys, value);
      hide WriteOutput, WriteAt, WithCopy, DictSpine;
      if Blanks(keys) == |keys| {
        StopsAbove(host, WithCopy(entries), keys, value);
      } else {
        var n := Blanks(keys);
        OnePastBlanks(keys);
        if DictSpine(WithCopy(entries), [""] + keys, n) {
          ReadElsewhere(host, WithCopy(entries), [""] + keys, value, keys, n);
        } else {
          OffSpineReadsNull(host, WithCopy(entries), [""] + keys, value, keys, n);
        }
        if keys[0] != "" {
          FirstKeyPasses(host, entries, Obj(WriteAt(entries, keys, value)), keys);
        }
      }
    }
  }

  /** An anonymous write that reaches an output is read back, anonymously and by the output's name. */
  lemma {:induction false} ReachedReadBack(host: Host, entries: Entries, keys: seq<string>, value: Value)
    requires ReachesOutput(entries, keys)
    ensures ReadOutput(host, WriteOutput(entries, "", keys, value).value, "", keys) == value
    ensures ReadOutput(host, WriteOutput(entries, "", keys, value).value, keys[0], keys[1..]) == value
  {
    AnonymousEdits(host, entries, keys, value, keys[0], keys[1..]);
    OutputGetAfterSet(host, entries, keys[0], keys[1..], value);
    var all := WriteAt(entries, keys, value);
    assert WriteOutput(entries, "", keys, value).value == Put(all, "", Obj(all));
    hide WriteOutput, WriteAt;
    FirstKeyPasses(host, all, Obj(all), keys);
    ReadWritten(host, entries, keys, value);
  }

  lemma {:induction false} FirstKeyPasses(host: Host, entries: Entries, value: Value, keys: seq<string>)
    requires keys != [] && keys[0] != ""
    ensures ReadAt(host, Obj(Put(entries, "", value)), keys) == ReadAt(host, Obj(entries), keys)
  {
    LookupPut(entries, "", value, keys[0]);
  }

  /**
   Reading after an accepted write gives the value written exactly for a named output, for an
   anonymous reference that reaches into an output, or when the value is what the anonymous
   reference reads anyway, past the place of the write.
   */
  lemma {:induction false} GetAfterSetIff(host: Host, s: Store, exp: string, value: Value)
    requires SetVariable(s, exp, value).Ok?
    ensures GetVariable(host, SetVariable(s, exp, value).value, exp) == Ok(value)
       <==> || IsNamed(exp)
            || ReachesOutput(s.outputs[Parse(exp).component], Keys(Parse(exp)))
            || (&& Blanks(Keys(Parse(exp))) < |Keys(Parse(exp))|
                && ReadPast(host, s.outputs[Parse(exp).component], Keys(Parse(exp))) == value)
  {
    if IsNamed(exp) {
      GetAfterSet(host, s, exp, value);
    } else {
      var r := Parse(exp);
      var entries := s.outputs[r.component];
      if ReachesOutput(entries, Keys(r)) {
        ReachedReadBack(host, entries, Keys(r), value);
      } else {
        AnonymousReadBack(host, entries, Keys(r), value);
      }
      hide Parse, Keys, WriteOutput, ReadOutput, ReadPast, ReachesOutput;
    }
  }

  /**
   The anonymous output is no lens, for any value: without keys it never reads back what was
   written; with a first key that reaches no output's dict it reads the old output of that name. Only
   a write that reaches an output's dict is read back, and then by the output's name too.
   */
  lemma {:induction false} AnonymousOutputIsNotALens(host: Host, s: Store, exp: string, value: Value)
    requires !IsNamed(exp) && SetVariable(s, exp, value).Ok?
    ensures Keys(Parse(exp)) == [] ==> GetVariable(host, SetVariable(s, exp, value).value, exp) != Ok(value)
    ensures var r := Parse(exp);
            var entries, after := s.outputs[r.component], SetVariable(s, exp, value).value;
            if ReachesOutput(entries, Keys(r)) then
              && GetVariable(host, after, exp) == Ok(value)
              && ReadOutput(host, after.outputs[r.component], Keys(r)[0], Keys(r)[1..]) == value
            else Keys(r) != [] && Keys(r)[0] != "" ==> GetVariable(host, after, exp) == GetVariable(host, s, exp)
  {
    var r := Parse(exp);
    var entries := s.outputs[r.component];
    if ReachesOutput(entries, Keys(r)) {
      ReachedReadBack(host, entries, Keys(r), value);
    } else {
      AnonymousReadBack(host, entries, Keys(r), value);
    }
    hide Parse, Keys, WriteOutput, ReadOutput, ReadPast;
  }

  /** For instance, `c@.a.b` writes into the output `a` of `c` if that is a dict. */
  lemma {:induction false} AnonymousReference(host: Host, exp: string, v: Value, value: Value)
    requires exp == "c@.a.b"
    ensures var s := Store(map[], map["c" := [("a", Obj([("b", v)]))]]);
            && SetVariable(s, exp, value).Ok?
            && GetVariable(host, SetVariable(s, exp, value).value, exp) == Ok(value)
            && ReadOutput(host, SetVariable(s, exp, value).value.outputs["c"], "a", ["b"]) == value
  {
    ParsedReference();
    hide Parse, Keys, ReadOutput, GetVariable;
    var entries, keys := [("a", Obj([("b", v)]))], ["a", "b"];
    var s := Store(map[], map["c" := entries]);
    assert ReachesOutput(entries, keys) && keys[1..] == ["b"];
    assert SetVariable(s, exp, value).Ok?;
    hide SetVariable;
    AnonymousOutputIsNotALens(host, s, exp, value);
  }

  lemma {:induction false} ParsedReference()
    ensures Parse("c@.a.b") == Output("c", "", "a.b") && Keys(Parse("c@.a.b")) == ["a", "b"]
  {
    var e := "c@.a.b";
    assert StripEnd(e, '{') == e && StripEnd(e, '}') == e && StripEnd(e, ' ') == e;
    assert e[1..] == "@.a.b" && IndexOf(e, '@') == 1 && e[2..] == ".a.b" && e[..1] == "c";
    assert IndexOf(".a.b", '.') == 0 && ".a.b"[1..] == "a.b" && ".a.b"[..0] == "";
    hide StripEnd, IndexOf;
    SplitAtDot();
  }

  lemma {:induction false} SplitAtDot()
    ensures Split("a.b", '.') == ["a", "b"]
  {
    assert "a.b"[1..] == ".b" && IndexOf("a.b", '.') == 1 && "a.b"[..1] == "a" && "a.b"[2..] == "b";
    assert "b"[1..] == "" && IndexOf("b", '.') == 1;
  }

  /** The two dicts differ at most in the entry under the empty name. */
  predicate SameButBlank(a: Entries, b: Entries) {
    Put(a, "", Null) == Put(b, "", Null)
  }

  lemma {:induction false} PutBlank(a: Entries, b: Entries, v: Value, w: Value)
    ensures Put(a, "", v) == Put(b, "", w) <==> SameButBlank(a, b) && v == w
  {
    LookupPut(a, "", v, "");
    LookupPut(b, "", w, "");
    PutPut(a, "", v, Null);
    PutPut(b, "", w, Null);
    PutPut(a, "", Null, v);
    PutPut(b, "", Null, v);
    hide Put, Lookup;
  }

  /** All keys are empty, and the dicts along them are the same but for that entry. */
  predicate Repeats(outer: Entries, entries: Entries, keys: seq<string>)
    decreases |keys|
  {
    keys == [] ||
    (&& keys[0] == "" && SameButBlank(outer, entries)
     && (|keys| == 1 || Repeats(entries, SubDict(entries, ""), keys[1..])))
  }

  lemma {:induction false} RewriteBelowBlank(
      outer: Entries, entries: Entries, keys: seq<string>, value: Value, value': Value)
    requires keys != []
    ensures WriteAt(Put(outer, "", Obj(WriteAt(entries, keys, value))), keys, value') == WriteAt(entries, keys, value')
       <==> Repeats(outer, entries, keys)
    decreases |keys|
  {
    var inner := WriteAt(entries, keys, value);
    var nested := Put(outer, "", Obj(inner));
    LookupPut(outer, "", Obj(inner), "");
    WriteAtUnfolds(nested, keys, value');
    WriteAtUnfolds(entries, keys, value');
    WriteAtUnfolds(entries, keys, value);
    if keys[0] != "" {
      OtherEntryStays(nested, keys, value');
      OtherEntryStays(entries, keys, value');
      OtherEntryStays(entries, keys, value);
      BlankEntryIsNotAll(inner);
    } else if |keys| == 1 {
      hide WriteAt;
      PutPut(outer, "", Obj(inner), value');
      PutBlank(outer, entries, value', value');
    } else {
      var child, rest := SubDict(entries, ""), keys[1..];
      hide WriteAt;
      assert SubDict(nested, "") == inner;
      PutPut(outer, "", Obj(inner), Obj(WriteAt(inner, rest, value')));
      PutBlank(outer, entries, Obj(WriteAt(inner, rest, value')), Obj(WriteAt(child, rest, value')));
      RewriteBelowBlank(entries, child, rest, value, value');
    }
  }

  lemma {:induction false} OtherEntryStays(entries: Entries, keys: seq<string>, value: Value)
    requires keys != [] && keys[0] != ""
    ensures Lookup(WriteAt(entries, keys, value), "") == Lookup(entries, "")
  {
    WriteAtUnfolds(entries, keys, value);
    hide WriteAt;
    LookupPut(entries, keys[0],
        if |keys| == 1 then value else Obj(WriteAt(SubDict(entries, keys[0]), keys[1..], value)), "");
  }

  lemma {:induction false} BlankEntryIsNotAll(entries: Entries)
    ensures Lookup(entries, "") != Some(Obj(entries))
  {
    LookupFindsEntry(entries, "");
    forall i | 0 <= i < |entries| ensures entries[i].1 != Obj(entries) {
      NotItsOwnEntry(Obj(entries), i);
    }
  }

  /**
   A second write overwrites the first exactly for a named output, without keys, or along dicts that
   repeat themselves.
   */
  lemma {:induction false} SetAfterSetIff(s: Store, exp: string, value: Value, value': Value)
    requires SetVariable(s, exp, value).Ok?
    ensures SetVariable(SetVariable(s, exp, value).value, exp, value') == SetVariable(s, exp, value')
       <==> IsNamed(exp) || (var r := Parse(exp); Repeats(s.outputs[r.component], s.outputs[r.component], Keys(r)))
  {
    if IsNamed(exp) {
      SetAfterSet(s, exp, value, value');
    } else {
      var r := Parse(exp);
      var c, entries, keys := r.component, s.outputs[r.component], Keys(r);
      AnonymousTwice(entries, keys, value, value');
      hide Parse, Keys, WriteOutput, Repeats;
      var first := WriteOutput(entries, "", keys, value).value;
      var second, direct := WriteOutput(first, "", keys, value'), WriteOutput(entries, "", keys, value');
      assert s.outputs[c := first][c := second.value] == s.outputs[c := second.value];
      assert s.outputs[c := second.value][c] == second.value && s.outputs[c := direct.value][c] == direct.value;
    }
  }

  lemma {:induction false} AnonymousTwice(entries: Entries, keys: seq<string>, value: Value, value': Value)
    ensures WriteOutput(entries, "", keys, value).Ok? && WriteOutput(entries, "", keys, value').Ok?
    ensures var first := WriteOutput(entries, "", keys, value).value;
            && WriteOutput(first, "", keys, value').Ok?
            && (WriteOutput(first, "", keys, value').value == WriteOutput(entries, "", keys, value').value
                <==> Repeats(entries, entries, keys))
  {
    if keys == [] {
      PutPut(entries, "", value, value');
    } else if keys[0] == "" {
      AnonymousWrite(entries, keys, value);
      AnonymousWrite(entries, keys, value');
      var first := Put(entries, "", Obj(WriteAt(entries, keys, value)));
      AnonymousWrite(first, keys, value');
      RewriteBelowBlank(entries, entries, keys, value, value');
      PutPut(entries, "", Obj(WriteAt(entries, keys, value)), Obj(WriteAt(first, keys, value')));
      PutBlank(entries, entries, Obj(WriteAt(first, keys, value')), Obj(WriteAt(entries, keys, value')));
      hide WriteOutput, WriteAt, Put, Repeats;
    } else {
      CollectionsNest(entries, keys, value, value');
    }
  }

  /** With a first key, the second write stores a collection that has the first one in it. */
  lemma {:induction false} CollectionsNest(entries: Entries, keys: seq<string>, value: Value, value': Value)
    requires keys != [] && keys[0] != ""
    ensures WriteOutput(entries, "", keys, value).Ok? && WriteOutput(entries, "", keys, value').Ok?
    ensures var first := WriteOutput(entries, "", keys, value).value;
            && WriteOutput(first, "", keys, value').Ok?
            && WriteOutput(first, "", keys, value').value != WriteOutput(entries, "", keys, value').value
  {
    var all, first := WriteAt(entries, keys, value), WriteOutput(entries, "", keys, value).value;
    BlankEntryOf(entries, keys, value);
    BlankEntryOf(entries, keys, value');
    BlankEntryOf(first, keys, value');
    OtherEntryStays(entries, keys, value);
    OtherEntryStays(entries, keys, value');
    OtherEntryStays(first, keys, value');
    BlankEntryIsNotAll(all);
    hide WriteOutput, WriteAt, Lookup;
  }

  lemma {:induction false} BlankEntryOf(entries: Entries, keys: seq<string>, value: Value)
    requires keys != []
    ensures WriteOutput(entries, "", keys, value).Ok?
    ensures Lookup(WriteOutput(entries, "", keys, value).value, "") == Some(Obj(WriteAt(entries, keys, value)))
  {
    var all := WriteAt(entries, keys, value);
    hide WriteAt;
    LookupPut(if ReachesOutput(entries, keys) then all else entries, "", Obj(all), "");
  }

  /** At a list the frame fails too: writing `a.b` replaces the list, and its elements are gone. */
  lemma {:induction false} ListNodeIsReplaced(host: Host, v: Value)
    requires host.toInt("0") == Some(0)
    ensures var entries := [("a", Arr([v]))];
            && PartAt(["a", "b"], ["a", "0"], 1)
            && ReadAt(host, Obj(entries), ["a", "0"]) == v
            && ReadAt(host, Obj(WriteAt(entries, ["a", "b"], Null)), ["a", "0"]) == Null
  {
    var entries := [("a", Arr([v]))];
    assert ["a", "0"][1..] == ["0"] && ["0"][1..] == [] && ["a", "b"][1..] == ["b"];
    assert ["a", "b"][..1] == ["a", "0"][..1];
    assert Lookup(entries, "a") == Some(Arr([v])) && Descend(host, Obj(entries), "a") == Arr([v]);
    assert WriteAt([], ["b"], Null) == [("b", Null)];
    var written := [("a", Obj([("b", Null)]))];
    assert WriteAt(entries, ["a", "b"], Null) == written;
    assert [("b", Null)][1..] == [] && Lookup([("b", Null)], "0") == None;
    assert Descend(host, Obj(written), "a") == Obj([("b", Null)]);
  }

  // ----- the program -----

  class Graph {
    const host: Host
    var store: Store

    constructor (host: Host, store: Store)
      ensures this.host == host && this.store == store
    {
      this.host := host;
      this.store := store;
    }

    /** `get_variable_param_value` */
    method GetParamValue(v: Value, path: string) returns (r: Value)
      ensures r == ReadAt(host, v, if path == "" then [] else Split(path, '.'))
    {
      r := v;
      if path == "" {
        return;
      }
      var keys := Split(path, '.');
      assert keys[0..] == keys;
      for i := 0 to |keys|
        invariant ReadAt(host, r, keys[i..]) == ReadAt(host, v, keys)
      {
        assert keys[i..][0] == keys[i] && keys[i..][1..] == keys[i + 1..];
        ReadNull(host, keys[i..]);
        ReadNull(host, keys[i + 1..]);
        if r.Null? {
          return Null;
        }
        if r.Str? {
          var loaded := host.loads(r.text);
          if loaded.None? {
            return Null;
          }
          r := Member(host, loaded.value, keys[i]);
        } else {
          r := Member(host, r, keys[i]);
        }
      }
    }

    method Get(exp: string) returns (r: Result<Value, Failure>)
      ensures r == GetVariable(host, store, exp)
    {
      var ref := Parse(exp);
      match ref
      case Global(name) =>
        return if name in store.globals then Ok(store.globals[name]) else Err(NoSuchGlobal(name));
      case Output(component, root, rest) =>
        if component !in store.outputs {
          return Err(NoSuchComponent(ref));
        }
        var v := GetParamValue(OutputOf(store.outputs[component], root), rest);
        return Ok(v);
    }

    method Set(exp: string, value: Value) returns (failed: Option<Failure>)
      modifies this
      ensures match SetVariable(old(store), exp, value)
              case Ok(s) => failed == None && store == s
              case Err(e) => failed == Some(e) && store == old(store)
    {
      var ref := Parse(exp);
      match ref
      case Global(name) =>
        store := store.(globals := store.globals[name := value]);
        return None;
      case Output(component, root, rest) =>
        if component !in store.outputs {
          return Some(NoSuchComponent(ref));
        }
        var entries := store.outputs[component];
        var updated := value;
        if rest != "" {
          var dict, keys := OutputOf(entries, root), Split(rest, '.');
          if IsFalsy(dict) {
            dict := Obj([]);
          }
          if !dict.Obj? {
            return Some(NotADict);
          }
          updated := Obj(WriteAt(dict.entries, keys, value));
          if root == "" && ReachesOutput(entries, keys) {
            entries := updated.entries;
          }
        }
        store := store.(outputs := store.outputs[component := Put(entries, root, updated)]);
        return None;
    }
  }
}
