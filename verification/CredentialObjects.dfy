/** Redacting and carrying forward on the provider's own objects, which are cloned and then edited in
    place (platform/shared/identity-provider.ts). */
module CredentialObjects {
  import opened Wrappers
  import opened Credentials

  datatype Slot =
    | Leaf(text: string)
    | Else(what: string)
    | Sub(node: Node)

  /** A plain record. No object is reached in two ways. */
  class Node {
    var fields: map<string, Slot>
    /** Covers every object below this one. */
    ghost const Below: set<Node>

    ghost function Repr(): set<Node> {
      {this} + Below
    }

    ghost predicate Valid()
      reads this, Below
      decreases Below
    {
      && this !in Below
      && (forall k :: k in fields && fields[k].Sub? ==>
            && fields[k].node in Below
            && fields[k].node.Below <= Below - {fields[k].node}
            && fields[k].node.Valid())
      && (forall k, m :: k in fields && m in fields && k != m && fields[k].Sub? && fields[m].Sub? ==>
            fields[k].node.Repr() !! fields[m].node.Repr())
    }

    /** The record as a value. */
    ghost function Value(): (v: Tree)
      requires Valid()
      reads this, Below
      ensures v.Record?
      decreases Below
    {
      Record(map k | k in fields ::
        match fields[k]
        case Leaf(text) => Text(text)
        case Else(what) => Other(what)
        case Sub(node) => node.Value())
    }

    constructor (fields: map<string, Slot>, ghost below: set<Node>)
      ensures this.fields == fields && Below == below
    {
      this.fields := fields;
      Below := below;
    }
  }

  ghost function ReprOf(s: Slot): set<Node> {
    if s.Sub? then s.node.Repr() else {}
  }

  ghost predicate ValidSlot(s: Slot)
    reads ReprOf(s)
  {
    s.Sub? ==> s.node.Valid()
  }

  ghost function ValueOf(s: Slot): Tree
    requires ValidSlot(s)
    reads ReprOf(s)
  {
    match s
    case Leaf(text) => Text(text)
    case Else(what) => Other(what)
    case Sub(node) => node.Value()
  }

  ghost function ValueIn(o: Option<Slot>): Option<Tree>
    requires o.Some? ==> ValidSlot(o.value)
    reads if o.Some? then ReprOf(o.value) else {}
  {
    if o.Some? then Some(ValueOf(o.value)) else None
  }

  // ----- One path -----

  lemma {:induction false} ReadThrough(v: Tree, path: Path)
    requires path != []
    ensures var parent, leaf := ReadAt(v, path[..|path| - 1]), path[|path| - 1];
            ReadAt(v, path) ==
            if parent.Some? && parent.value.Record? && leaf in parent.value.fields then Some(parent.value.fields[leaf])
            else None
    decreases |path|
  {
    if |path| > 1 && v.Record? && path[0] in v.fields {
      assert path[1..][..|path[1..]| - 1] == path[..|path| - 1][1..];
      ReadThrough(v.fields[path[0]], path[1..]);
    }
  }

  /** The slot a path leads to. */
  ghost function SlotAt(s: Slot, path: Path): (o: Option<Slot>)
    requires ValidSlot(s)
    reads ReprOf(s)
    ensures o.Some? ==> ValidSlot(o.value) && ReprOf(o.value) <= ReprOf(s)
    decreases |path|
  {
    if path == [] then Some(s)
    else if s.Sub? && path[0] in s.node.fields then SlotAt(s.node.fields[path[0]], path[1..])
    else None
  }

  lemma {:induction false} SlotReads(s: Slot, path: Path)
    requires ValidSlot(s)
    ensures ReadAt(ValueOf(s), path) == ValueIn(SlotAt(s, path))
    decreases |path|
  {
    if path != [] && s.Sub? && path[0] in s.node.fields {
      SlotReads(s.node.fields[path[0]], path[1..]);
    }
  }

  /** readAtPath: the cursor stands on nothing once a segment is missing. */
  method ReadAtPath(source: Slot, path: Path) returns (value: Option<Slot>)
    requires ValidSlot(source)
    ensures value == SlotAt(source, path)
    ensures ReadAt(ValueOf(source), path) == ValueIn(value)
  {
    SlotReads(source, path);
    var cursor := Some(source);
    for i := 0 to |path|
      invariant cursor.Some? ==> ValidSlot(cursor.value)
      invariant SlotAt(source, path) == if cursor.Some? then SlotAt(cursor.value, path[i..]) else None
    {
      if cursor.None? || !cursor.value.Sub? {
        return None;
      }
      var fields := cursor.value.node.fields;
      assert path[i..][0] == path[i] && path[i..][1..] == path[i + 1..];
      cursor := if path[i] in fields then Some(fields[path[i]]) else None;
    }
    return cursor;
  }

  /** The tree with another in the place a path leads to. */
  ghost function Put(v: Tree, path: Path, w: Tree): Tree
    decreases |path|
  {
    if path == [] then w
    else if v.Record? && path[0] in v.fields then
      Record(v.fields[path[0] := Put(v.fields[path[0]], path[1..], w)])
    else v
  }

  /** Every object of the set is as it was, but for one. */
  twostate predicate OnlyEdited(repr: set<Node>, at: Node)
    reads repr
  {
    forall n: Node :: n in repr && n != at ==> unchanged(n)
  }

  /** What does not hold the edited object stays. */
  twostate lemma {:induction false} Beside(new root: Node, key: string, new next: Node, new at: Node)
    requires old(allocated(root) && allocated(at)) && old(root.Valid()) && root.fields == old(root.fields)
    requires key in root.fields && root.fields[key] == Sub(next) && at in next.Repr()
    requires OnlyEdited(root.Repr(), at)
    ensures forall k :: k in root.fields && k != key ==>
              ValidSlot(root.fields[k]) && ValueOf(root.fields[k]) == old(ValueOf(root.fields[k]))
  {
    forall k | k in root.fields && k != key && root.fields[k].Sub?
      ensures ValidSlot(root.fields[k]) && ValueOf(root.fields[k]) == old(ValueOf(root.fields[k]))
    {
      assert root.fields[k].node.Repr() !! next.Repr();
      assert OnlyEdited(root.fields[k].node.Repr(), at);
    }
  }

  /** An edit of the one object a path leads to, as seen from the root. */
  twostate lemma {:induction false} EditedBelow(new s: Slot, path: Path, new at: Node)
    requires old(allocated(s) && allocated(at))
    requires old(ValidSlot(s)) && old(SlotAt(s, path)) == Some(Sub(at))
    requires OnlyEdited(ReprOf(s), at) && at.Valid()
    ensures ValidSlot(s) && ValueOf(s) == Put(old(ValueOf(s)), path, at.Value())
    decreases |path|
  {
    if path != [] {
      var root, key := s.node, path[0];
      var next := old(root.fields[key]);
      assert at in ReprOf(next) && root != at && root.fields == old(root.fields);
      EditedBelow(next, path[1..], at);
      Beside(root, key, next.node, at);
      assert root.Valid();
    }
  }

  lemma {:induction false} DeleteIsPut(v: Tree, path: Path)
    requires path != []
    ensures var front, leaf := path[..|path| - 1], path[|path| - 1];
            var parent := ReadAt(v, front);
            DeleteAt(v, path) ==
            if parent.Some? && parent.value.Record? then Put(v, front, Record(parent.value.fields - {leaf})) else v
    decreases |path|
  {
    if |path| > 1 && v.Record? && path[0] in v.fields {
      assert path[1..][..|path[1..]| - 1] == path[..|path| - 1][1..];
      DeleteIsPut(v.fields[path[0]], path[1..]);
      assert v.fields[path[0] := v.fields[path[0]]] == v.fields;
    }
  }

  lemma {:induction false} WriteIsPut(v: Tree, path: Path, text: string)
    requires path != []
    ensures var front, leaf := path[..|path| - 1], path[|path| - 1];
            var parent := ReadAt(v, front);
            WriteAt(v, path, text) ==
            if parent.Some? && parent.value.Record? then Put(v, front, Record(parent.value.fields[leaf := Text(text)]))
            else v
    decreases |path|
  {
    if |path| > 1 && v.Record? && path[0] in v.fields {
      assert path[1..][..|path[1..]| - 1] == path[..|path| - 1][1..];
      WriteIsPut(v.fields[path[0]], path[1..], text);
      assert v.fields[path[0] := v.fields[path[0]]] == v.fields;
    }
  }

  /** What the leaf's parent is after an edit of its own fields, with all below it the same. */
  twostate lemma {:induction false} LeafEdited(new parent: Node, new leaf: string, new text: string)
    requires old(allocated(parent)) && old(parent.Valid())
    requires forall n: Node :: n in parent.Below ==> unchanged(n)
    ensures parent.fields == old(parent.fields) - {leaf} ==>
              parent.Valid() && parent.Value() == Record(old(parent.Value()).fields - {leaf})
    ensures parent.fields == old(parent.fields)[leaf := Leaf(text)] ==>
              parent.Valid() && parent.Value() == Record(old(parent.Value()).fields[leaf := Text(text)])
  {
    forall k | k in old(parent.fields) && old(parent.fields)[k].Sub?
      ensures var n := old(parent.fields)[k].node; n.Valid() && n.Value() == old(n.Value())
    {
      assert old(parent.fields)[k].node.Repr() <= parent.Below;
    }
  }

  /** The parent of the path's leaf, and nothing else, was edited. */
  twostate predicate ParentEdited(new target: Slot, path: Path, new parent: Node)
    requires old(allocated(target) && allocated(parent)) && path != []
    reads ReprOf(target)
  {
    var front := path[..|path| - 1];
    && old(ValidSlot(target))
    && old(SlotAt(target, front)) == Some(Sub(parent))
    && old(ReadAt(ValueOf(target), front)) == Some(old(parent.Value()))
    && OnlyEdited(ReprOf(target), parent)
  }

  twostate lemma {:induction false} LeafDeleted(new target: Slot, path: Path, new parent: Node)
    requires old(allocated(target) && allocated(parent)) && path != []
    requires ParentEdited(target, path, parent)
    requires parent.fields == old(parent.fields) - {path[|path| - 1]}
    ensures ValidSlot(target) && ValueOf(target) == DeleteAt(old(ValueOf(target)), path)
  {
    LeafEdited(parent, path[|path| - 1], "");
    EditedBelow(target, path[..|path| - 1], parent);
    DeleteIsPut(old(ValueOf(target)), path);
  }

  twostate lemma {:induction false} LeafWritten(new target: Slot, path: Path, new parent: Node, new text: string)
    requires old(allocated(target) && allocated(parent)) && path != []
    requires ParentEdited(target, path, parent)
    requires parent.fields == old(parent.fields)[path[|path| - 1] := Leaf(text)]
    ensures ValidSlot(target) && ValueOf(target) == WriteAt(old(ValueOf(target)), path, text)
  {
    LeafEdited(parent, path[|path| - 1], text);
    EditedBelow(target, path[..|path| - 1], parent);
    WriteIsPut(old(ValueOf(target)), path, text);
  }

  method IsPopulated(o: Option<Slot>) returns (b: bool)
    requires o.Some? ==> ValidSlot(o.value)
    ensures b == Populated(ValueIn(o))
  {
    return o.Some? && o.value.Leaf? && o.value.text != "";
  }

  /** The end of deleteAtPath. */
  method TakeLeaf(parent: Node, leaf: string) returns (configured: bool)
    requires parent.Valid()
    modifies parent
    ensures parent.fields == old(parent.fields) - {leaf}
    ensures var fields := old(parent.Value()).fields;
            configured == Populated(if leaf in fields then Some(fields[leaf]) else None)
  {
    var value := if leaf in parent.fields then Some(parent.fields[leaf]) else None;
    configured := IsPopulated(value);
    parent.fields := parent.fields - {leaf};
  }

  /** deleteAtPath, but for its answer on an empty path, which no list holds. */
  method DeleteAtPath(target: Slot, path: Path) returns (configured: bool)
    requires ValidSlot(target) && path != []
    modifies ReprOf(target)
    ensures ValidSlot(target) && ValueOf(target) == DeleteAt(old(ValueOf(target)), path)
    ensures configured == Populated(ReadAt(old(ValueOf(target)), path))
  {
    var front, leaf := path[..|path| - 1], path[|path| - 1];
    ReadThrough(ValueOf(target), path);
    var cursor := ReadAtPath(target, front);
    if cursor.None? || !cursor.value.Sub? {
      DeleteIsPut(ValueOf(target), path);
      return false;
    }
    configured := TakeLeaf(cursor.value.node, leaf);
    LeafDeleted(target, path, cursor.value.node);
  }

  /** writeAtPath, likewise. */
  method WriteAtPath(target: Slot, path: Path, text: string)
    requires ValidSlot(target) && path != []
    modifies ReprOf(target)
    ensures ValidSlot(target) && ValueOf(target) == WriteAt(old(ValueOf(target)), path, text)
  {
    var front, leaf := path[..|path| - 1], path[|path| - 1];
    var cursor := ReadAtPath(target, front);
    if cursor.None? || !cursor.value.Sub? {
      WriteIsPut(ValueOf(target), path, text);
      return;
    }
    var parent := cursor.value.node;
    parent.fields := parent.fields[leaf := Leaf(text)];
    LeafWritten(target, path, parent, text);
  }

  // ----- Cloning -----

  /** The slots reach no object in common, and all of them are in the set. */
  ghost predicate Apiece(fields: map<string, Slot>, made: set<Node>)
    reads made
  {
    && (forall k :: k in fields ==> ReprOf(fields[k]) <= made && ValidSlot(fields[k]))
    && (forall k, m :: k in fields && m in fields && k != m ==> ReprOf(fields[k]) !! ReprOf(fields[m]))
  }

  lemma {:induction false} OneMore(fields: map<string, Slot>, made: set<Node>, k: string, slot: Slot)
    requires Apiece(fields, made) && ValidSlot(slot) && ReprOf(slot) !! made && k !in fields
    ensures Apiece(fields[k := slot], made + ReprOf(slot))
  {
  }

  lemma {:induction false} RecordOf(node: Node)
    requires Apiece(node.fields, node.Below) && node !in node.Below
    ensures node.Valid()
    ensures node.Value().fields == map k | k in node.fields :: ValueOf(node.fields[k])
  {
    forall k | k in node.fields && node.fields[k].Sub?
      ensures node.fields[k].node.Below <= node.Below - {node.fields[k].node}
    {
      assert ReprOf(node.fields[k]) <= node.Below && ValidSlot(node.fields[k]);
    }
  }

  /** structuredClone: an equal tree of new objects. */
  method Clone(source: Slot) returns (copy: Slot)
    requires ValidSlot(source)
    ensures fresh(ReprOf(copy)) && ValidSlot(copy) && ValueOf(copy) == ValueOf(source)
    decreases ReprOf(source), 1
  {
    if !source.Sub? {
      return source;
    }
    ghost var made;
    var fields;
    fields, made := CloneFields(source.node);
    var node := new Node(fields, made);
    RecordOf(node);
    return Sub(node);
  }

  method CloneFields(source: Node) returns (fields: map<string, Slot>, ghost made: set<Node>)
    requires source.Valid()
    ensures fresh(made) && Apiece(fields, made) && fields.Keys == source.Value().fields.Keys
    ensures forall k :: k in fields ==> ValueOf(fields[k]) == source.Value().fields[k]
    decreases source.Repr(), 0
  {
    ghost var values := source.Value().fields;
    fields, made := map[], {};
    var keys := source.fields.Keys;
    while keys != {}
      invariant keys <= source.fields.Keys && fields.Keys == source.fields.Keys - keys
      invariant fresh(made) && Apiece(fields, made)
      invariant forall k :: k in fields ==> ValueOf(fields[k]) == values[k]
      decreases keys
    {
      var k :| k in keys;
      var slot := Clone(source.fields[k]);
      OneMore(fields, made, k, slot);
      fields, made, keys := fields[k := slot], made + ReprOf(slot), keys - {k};
    }
  }

  // ----- All listed paths -----

  /** Redacting stands at the n-th path, with the record like this. */
  ghost predicate Redacting(was: Tree, now: Tree, paths: seq<Path>, n: nat, configured: seq<Path>)
    requires Listed(paths) && n <= |paths|
  {
    && DeleteAll(now, paths[n..]) == DeleteAll(was, paths)
    && (forall i :: n <= i < |paths| ==> ReadAt(now, paths[i]) == ReadAt(was, paths[i]))
    && configured + PopulatedPaths(was, paths[n..]) == PopulatedPaths(was, paths)
  }

  lemma {:induction false} RedactingNext(was: Tree, now: Tree, paths: seq<Path>, n: nat, configured: seq<Path>)
    requires Listed(paths) && n < |paths| && Redacting(was, now, paths, n, configured)
    ensures var more := if Populated(ReadAt(now, paths[n])) then [paths[n]] else [];
            Redacting(was, DeleteAt(now, paths[n]), paths, n + 1, configured + more)
  {
    FromPath(now, paths, n);
    FromPath(was, paths, n);
    DeleteKeepsLater(now, paths, n);
  }

  /** redactIdentityProviderSecrets. The provider is left as it is. */
  method Redact(provider: Node, paths: seq<Path>) returns (redacted: Slot, configured: seq<Path>)
    requires provider.Valid() && Listed(paths)
    ensures fresh(ReprOf(redacted)) && ValidSlot(redacted)
    ensures ValueOf(redacted) == DeleteAll(provider.Value(), paths)
    ensures configured == PopulatedPaths(provider.Value(), paths)
  {
    ghost var was := provider.Value();
    redacted := Clone(Sub(provider));
    configured := [];
    for n := 0 to |paths|
      invariant fresh(ReprOf(redacted)) && ValidSlot(redacted)
      invariant Redacting(was, ValueOf(redacted), paths, n, configured)
    {
      RedactingNext(was, ValueOf(redacted), paths, n, configured);
      var populated := DeleteAtPath(redacted, paths[n]);
      configured := configured + if populated then [paths[n]] else [];
    }
  }

  /** Carrying forward stands at the n-th path, with the record like this. */
  ghost predicate Carrying(incoming: Tree, now: Tree, existing: Tree, paths: seq<Path>, n: nat)
    requires Listed(paths) && n <= |paths|
  {
    CarryAll(now, existing, paths[n..]) == CarryAll(incoming, existing, paths)
  }

  lemma {:induction false} CarryingNext(incoming: Tree, now: Tree, existing: Tree, paths: seq<Path>, n: nat)
    requires Listed(paths) && n < |paths| && Carrying(incoming, now, existing, paths, n)
    ensures Carrying(incoming, Carry(now, existing, paths[n]), existing, paths, n + 1)
  {
    assert paths[n..][0] == paths[n] && paths[n..][1..] == paths[n + 1..];
  }

  /** The non-empty string at a path, if there is one. */
  method TextAt(source: Slot, path: Path) returns (text: Option<string>)
    requires ValidSlot(source)
    ensures text.Some? == Populated(ReadAt(ValueOf(source), path))
    ensures text.Some? ==> ReadAt(ValueOf(source), path) == Some(Text(text.value))
  {
    var value := ReadAtPath(source, path);
    var populated := IsPopulated(value);
    return if populated then Some(value.value.text) else None;
  }

  /** One turn of the loop: a populated value stays, and otherwise a populated stored one is written. */
  method CarryPath(merged: Slot, existing: Node, path: Path)
    requires ValidSlot(merged) && existing.Valid() && path != []
    modifies ReprOf(merged)
    ensures ValidSlot(merged) && ValueOf(merged) == Carry(old(ValueOf(merged)), old(existing.Value()), path)
  {
    ghost var now, stored := ValueOf(merged), existing.Value();
    var incomingValue := TextAt(merged, path);
    if incomingValue.None? {
      var existingValue := TextAt(Sub(existing), path);
      if existingValue.Some? {
        assert Carry(now, stored, path) == WriteAt(now, path, existingValue.value);
        WriteAtPath(merged, path, existingValue.value);
      }
    }
  }

  /** preserveIdentityProviderSecrets. Neither record is changed, and they may share objects. */
  method Preserve(incoming: Node, existing: Node, paths: seq<Path>) returns (merged: Slot)
    requires incoming.Valid() && existing.Valid() && Listed(paths)
    ensures fresh(ReprOf(merged)) && ValidSlot(merged)
    ensures ValueOf(merged) == CarryAll(incoming.Value(), existing.Value(), paths)
  {
    ghost var start, stored := incoming.Value(), existing.Value();
    merged := Clone(Sub(incoming));
    for n := 0 to |paths|
      invariant fresh(ReprOf(merged)) && ValidSlot(merged)
      invariant Carrying(start, ValueOf(merged), stored, paths, n)
    {
      CarryingNext(start, ValueOf(merged), stored, paths, n);
      assert existing.Valid() && existing.Value() == stored;
      CarryPath(merged, existing, paths[n]);
    }
  }
}
