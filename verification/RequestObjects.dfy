/** Request dictionaries on the heap: deep copies written through a moving cursor. */
module RequestObjects {
  import opened Prelude
  import opened Json
  import opened Binding

  /** What a key holds: a nested dictionary, or a value no path leads through. */
  datatype Slot = Leaf(value: Json) | Child(node: Node)

  class Node {
    var fields: map<string, Slot>
    ghost var Repr: set<Node>

    /** Nested dictionaries form a tree: no dictionary is reachable twice. */
    ghost predicate Valid()
      reads this, Repr
      decreases Repr, 2
    {
      && this in Repr
      && (forall k | k in fields :: ValidSlot(k))
      && (forall k, l | k in fields && l in fields && k != l :: ApartSlots(k, l))
    }

    ghost predicate ValidSlot(k: string)
      requires k in fields && this in Repr
      reads this, Repr
      decreases Repr, 0
    {
      match fields[k]
      case Leaf(value) => !value.JObj?
      case Child(node) => node in Repr && node.Repr <= Repr && this !in node.Repr && node.Valid()
    }

    ghost predicate ApartSlots(k: string, l: string)
      requires this in Repr && k in fields && l in fields && ValidSlot(k) && ValidSlot(l)
      reads this, Repr
      decreases Repr, 1
    {
      fields[k].Child? && fields[l].Child? ==> fields[k].node.Repr !! fields[l].node.Repr
    }

    /** The JSON object this dictionary stands for. */
    ghost function Contents(): Object
      requires Valid()
      reads this, Repr
      decreases Repr, 1
    {
      map k | k in fields :: SlotContents(k)
    }

    ghost function SlotContents(k: string): Json
      requires Valid() && k in fields
      reads this, Repr
      decreases Repr, 0
    {
      assert ValidSlot(k);
      match fields[k]
      case Leaf(value) => value
      case Child(node) => JObj(node.Contents())
    }

    constructor (fields: map<string, Slot>, ghost repr: set<Node>)
      ensures this.fields == fields && Repr == repr + {this}
    {
      this.fields := fields;
      Repr := repr + {this};
    }
  }

  // ----- Deep copies -----

  /** `slot` stands for `source` and its dictionaries are all in `repr`. */
  ghost predicate Installed(slot: Slot, source: Json, repr: set<Node>)
    reads if slot.Child? then {slot.node} + slot.node.Repr else {}
  {
    match slot
    case Leaf(value) => value == source && !value.JObj?
    case Child(node) => node in repr && node.Repr <= repr && node.Valid() && JObj(node.Contents()) == source
  }

  /** The entries copied so far: equal to the source's, and no dictionary shared between them. */
  ghost predicate Copied(fields: map<string, Slot>, source: Object, repr: set<Node>)
    reads repr
  {
    && fields.Keys <= source.Keys
    && (forall k | k in fields && fields[k].Child? :: fields[k].node in repr && fields[k].node.Repr <= repr)
    && (forall k | k in fields :: Installed(fields[k], source[k], repr))
    && (forall k, l | k in fields && l in fields && k != l :: Disjoint(fields[k], fields[l]))
  }

  ghost predicate Disjoint(a: Slot, b: Slot)
    reads if a.Child? then {a.node} else {}
    reads if b.Child? then {b.node} else {}
  {
    a.Child? && b.Child? ==> a.node.Repr !! b.node.Repr
  }

  lemma OneMoreCopied(fields: map<string, Slot>, source: Object, repr: set<Node>, key: string, slot: Slot, added: set<Node>)
    requires Copied(fields, source, repr) && key in source && key !in fields
    requires Installed(slot, source[key], added) && repr !! added
    ensures Copied(fields[key := slot], source, repr + added)
  {
  }

  lemma CopyComplete(copy: Node, source: Object, repr: set<Node>)
    requires copy !in repr && copy.Repr == repr + {copy}
    requires copy.fields.Keys == source.Keys && Copied(copy.fields, source, repr)
    ensures copy.Valid() && copy.Contents() == source
  {
    forall k | k in copy.fields ensures copy.ValidSlot(k) {
      assert Installed(copy.fields[k], source[k], repr);
    }
    forall k, l | k in copy.fields && l in copy.fields && k != l ensures copy.ApartSlots(k, l) {
      assert Disjoint(copy.fields[k], copy.fields[l]);
    }
    forall k | k in copy.fields ensures copy.SlotContents(k) == source[k] {
      assert Installed(copy.fields[k], source[k], repr);
    }
  }

  /** `copy.deepcopy`: an equal tree made of new dictionaries only. */
  method DeepCopy(source: Node) returns (copy: Node)
    requires source.Valid()
    ensures fresh(copy.Repr) && copy.Valid() && copy.Contents() == source.Contents()
    decreases source.Repr, 1
  {
    var todo := source.fields.Keys;
    var fields: map<string, Slot> := map[];
    ghost var repr: set<Node> := {};
    ghost var contents := source.Contents();
    while todo != {}
      invariant todo <= source.fields.Keys && fields.Keys == source.fields.Keys - todo
      invariant fresh(repr) && Copied(fields, contents, repr)
      decreases todo
    {
      hide Copied, Installed;
      var key :| key in todo;
      var slot, added := CopySlot(source, key);
      OneMoreCopied(fields, contents, repr, key, slot, added);
      todo, fields, repr := todo - {key}, fields[key := slot], repr + added;
    }
    copy := new Node(fields, repr);
    CopyComplete(copy, contents, repr);
  }

  method CopySlot(source: Node, key: string) returns (slot: Slot, ghost added: set<Node>)
    requires source.Valid() && key in source.fields
    ensures fresh(added) && Installed(slot, source.Contents()[key], added)
    decreases source.Repr, 0
  {
    assert source.ValidSlot(key);
    assert source.Contents()[key] == source.SlotContents(key);
    match source.fields[key] {
      case Leaf(value) =>
        slot, added := Leaf(value), {};
      case Child(node) =>
        var inner := DeepCopy(node);
        slot, added := Child(inner), inner.Repr;
    }
  }

  // ----- Writing through a cursor -----

  /** The dictionaries visited while walking down `segments` from the first of them. */
  ghost predicate Walk(trail: seq<Node>, segments: seq<string>)
    requires trail != []
    reads trail, trail[0].Repr
    decreases |trail|
  {
    && |trail| <= |segments|
    && trail[0].Valid()
    && (|trail| > 1 ==> Down(trail[0], segments[0], trail[1]) && Walk(trail[1..], segments[1..]))
  }

  /** `child` is the dictionary under `key`. */
  ghost predicate Down(parent: Node, key: string, child: Node)
    requires parent.Valid()
    reads parent, parent.Repr
    ensures Down(parent, key, child) ==>
              child in parent.Repr && child.Repr <= parent.Repr && parent !in child.Repr && child.Valid()
  {
    key in parent.fields && parent.ValidSlot(key) && parent.fields[key] == Child(child)
  }

  /** Along a walk, reading from the top is reading from the cursor. */
  lemma {:induction false} ReadFromCursor(trail: seq<Node>, segments: seq<string>)
    requires trail != [] && Walk(trail, segments)
    ensures trail[|trail| - 1].Valid() && trail[|trail| - 1] in trail[0].Repr
    ensures GetPath(trail[0].Contents(), segments)
            == GetPath(trail[|trail| - 1].Contents(), segments[|trail| - 1..])
    decreases |trail|
  {
    if |trail| > 1 {
      assert trail[0].Contents()[segments[0]] == trail[0].SlotContents(segments[0]);
      ReadFromCursor(trail[1..], segments[1..]);
      assert segments[1..][|trail| - 2..] == segments[|trail| - 1..];
    } else {
      assert segments[0..] == segments;
    }
  }

  lemma {:induction false} WalkExtends(trail: seq<Node>, segments: seq<string>, child: Node)
    requires trail != [] && Walk(trail, segments) && |trail| < |segments|
    requires trail[|trail| - 1].Valid() && Down(trail[|trail| - 1], segments[|trail| - 1], child)
    ensures Walk(trail + [child], segments)
    decreases |trail|
  {
    if |trail| > 1 {
      WalkExtends(trail[1..], segments[1..], child);
      assert (trail + [child])[1..] == trail[1..] + [child];
    } else {
      assert (trail + [child])[1..] == [child];
    }
  }

  /** After the leaf is overwritten in the last dictionary of the walk, the first one stands for the
      written object. */
  twostate lemma {:induction false} WrittenThrough(trail: seq<Node>, new segments: seq<string>, new value: string)
    requires |trail| == |segments| > 0 && old(Walk(trail, segments))
    requires LeafReplaced(trail[|trail| - 1], segments[|segments| - 1], value)
    requires forall n: Node | n in old(trail[0].Repr) && n != trail[|trail| - 1] :: unchanged(n)
    ensures trail[|trail| - 1] in old(trail[0].Repr) && Written(trail[0], segments, value)
    decreases |trail|
  {
    hide *;
    FirstStep(trail, segments);
    if |trail| == 1 {
      assert segments == [segments[0]];
      LeafWritten(trail[0], segments[0], value);
    } else {
      WrittenThrough(trail[1..], segments[1..], value);
      ChildWritten(trail, segments, value);
    }
  }

  twostate predicate Written(top: Node, new segments: seq<string>, new value: string)
    reads top, top.Repr
  {
    && segments != []
    && top.Repr == old(top.Repr)
    && old(top.Valid()) && top.Valid()
    && Some(top.Contents()) == SetPath(old(top.Contents()), segments, value)
  }

  twostate lemma FirstStep(trail: seq<Node>, new segments: seq<string>)
    requires trail != [] && old(Walk(trail, segments))
    ensures old(trail[0].Valid()) && trail[0] in old(trail[0].Repr)
    ensures |trail| > 1 ==> old(Walk(trail[1..], segments[1..]) && Down(trail[0], segments[0], trail[1]))
    ensures |trail| > 1 ==> old(trail[1].Repr <= trail[0].Repr && trail[0] !in trail[1].Repr)
  {
  }

  lemma SetBelow(o: Object, inner: Object, segments: seq<string>, value: string)
    requires |segments| > 1 && segments[0] in o && o[segments[0]] == JObj(inner)
    requires SetPath(inner, segments[1..], value).Some?
    ensures SetPath(o, segments, value) == Some(o[segments[0] := JObj(SetPath(inner, segments[1..], value).value)])
  {
  }

  twostate predicate LeafReplaced(node: Node, new leaf: string, new value: string)
    reads node
  {
    && old(leaf in node.fields)
    && node.fields == old(node.fields)[leaf := Leaf(JStr(value))]
    && node.Repr == old(node.Repr)
  }

  /** A subtree that is not written stands for the same object as before. */
  twostate lemma SubtreeKept(node: Node)
    requires old(node.Valid())
    requires forall n: Node | n in old(node.Repr) :: unchanged(n)
    ensures node.Valid() && node.Repr == old(node.Repr) && node.Contents() == old(node.Contents())
  {
    assert unchanged(node);
  }

  twostate lemma SlotKept(node: Node, new k: string)
    requires old(node.Valid()) && k in node.fields && k in old(node.fields) && node.fields[k] == old(node.fields)[k]
    requires node.Repr == old(node.Repr)
    requires node.fields[k].Child? ==>
               forall n: Node | n in old(node.fields[k].node.Repr) :: unchanged(n)
    ensures node.ValidSlot(k) && old(node.ValidSlot(k))
    ensures node.fields[k].Child? ==> node.fields[k].node.Repr == old(node.fields[k].node.Repr)
    ensures node.Valid() ==> node.SlotContents(k) == old(node.SlotContents(k))
  {
    assert old(node.ValidSlot(k));
    if node.fields[k].Child? {
      SubtreeKept(node.fields[k].node);
    }
  }

  twostate lemma LeafSlotKept(node: Node, new leaf: string, new value: string, new k: string)
    requires old(node.Valid()) && LeafReplaced(node, leaf, value) && k in node.fields && k != leaf
    requires forall n: Node | n in old(node.Repr) && n != node :: unchanged(n)
    ensures old(node.ValidSlot(k)) && node.ValidSlot(k)
    ensures node.fields[k].Child? ==> node.fields[k].node.Repr == old(node.fields[k].node.Repr)
    ensures node.Valid() ==> node.SlotContents(k) == old(node.SlotContents(k))
  {
    assert old(node.ValidSlot(k));
    SlotKept(node, k);
  }

  twostate lemma LeafNodeValid(node: Node, new leaf: string, new value: string)
    requires old(node.Valid()) && LeafReplaced(node, leaf, value)
    requires forall n: Node | n in old(node.Repr) && n != node :: unchanged(n)
    ensures node.Valid()
  {
    assert node in node.Repr;
    forall k | k in node.fields
      ensures node.ValidSlot(k)
      ensures k != leaf && node.fields[k].Child? ==> node.fields[k].node.Repr == old(node.fields[k].node.Repr)
    {
      if k != leaf {
        LeafSlotKept(node, leaf, value, k);
      }
    }
    forall k, l | k in node.fields && l in node.fields && k != l ensures node.ApartSlots(k, l) {
      assert old(node.ApartSlots(k, l));
    }
  }

  twostate lemma LeafWritten(node: Node, new leaf: string, new value: string)
    requires old(node.Valid()) && LeafReplaced(node, leaf, value)
    requires forall n: Node | n in old(node.Repr) && n != node :: unchanged(n)
    ensures Written(node, [leaf], value)
  {
    LeafNodeValid(node, leaf, value);
    forall k | k in node.fields && k != leaf ensures node.SlotContents(k) == old(node.SlotContents(k)) {
      LeafSlotKept(node, leaf, value, k);
    }
    assert node.Contents() == old(node.Contents())[leaf := JStr(value)];
  }

  twostate lemma ChildWritten(trail: seq<Node>, new segments: seq<string>, new value: string)
    requires |trail| == |segments| > 1 && old(trail[0].Valid()) && old(Down(trail[0], segments[0], trail[1]))
    requires unchanged(trail[0]) && Written(trail[1], segments[1..], value)
    requires forall n: Node | n in old(trail[0].Repr) && n !in old(trail[1].Repr) :: unchanged(n)
    ensures Written(trail[0], segments, value)
  {
    var node, child, key := trail[0], trail[1], segments[0];
    assert old(node.ValidSlot(key));
    forall k | k in node.fields
      ensures node.ValidSlot(k)
      ensures old(node.ValidSlot(k)) && (node.fields[k].Child? ==> node.fields[k].node.Repr == old(node.fields[k].node.Repr))
      ensures k != key && node.Valid() ==> node.SlotContents(k) == old(node.SlotContents(k))
    {
      assert old(node.ValidSlot(k));
      if k != key {
        assert old(node.ApartSlots(k, key));
        SlotKept(node, k);
      }
    }
    forall k, l | k in node.fields && l in node.fields && k != l ensures node.ApartSlots(k, l) {
      assert old(node.ApartSlots(k, l));
    }
    assert old(node.SlotContents(key)) == JObj(old(child.Contents()));
    assert node.Contents() == old(node.Contents())[key := JObj(child.Contents())];
    SetBelow(old(node.Contents()), old(child.Contents()), segments, value);
  }

  /** Overwrites an existing leaf in place; a path that does not exist changes nothing. */
  method SetExistingPath(request: Node, path: string, value: string) returns (written: bool)
    requires request.Valid()
    modifies request.Repr
    ensures request.Valid() && request.Repr == old(request.Repr)
    ensures written <==> SetPath(old(request.Contents()), SplitDots(path), value).Some?
    ensures written ==> Some(request.Contents()) == SetPath(old(request.Contents()), SplitDots(path), value)
    ensures !written ==> request.Contents() == old(request.Contents())
  {
    var segments := SplitDots(path);
    var cursor := request;
    ghost var trail := [request];
    ghost var contents := request.Contents();
    WritableIffReadable(contents, segments, value);
    for i := 0 to |segments| - 1
      invariant request.Valid() && request.Repr == old(request.Repr) && request.Contents() == contents
      invariant |trail| == i + 1 && trail[0] == request && trail[i] == cursor && Walk(trail, segments)
    {
      ReadFromCursor(trail, segments);
      if segments[i] !in cursor.fields || !cursor.fields[segments[i]].Child? {
        NoWayDown(cursor, segments[i..]);
        return false;
      }
      assert cursor.ValidSlot(segments[i]);
      var next := cursor.fields[segments[i]].node;
      WalkExtends(trail, segments, next);
      cursor, trail := next, trail + [next];
    }
    ReadFromCursor(trail, segments);
    var leaf := segments[|segments| - 1];
    if leaf !in cursor.fields {
      NoWayDown(cursor, [leaf]);
      return false;
    }
    label Before:
    cursor.fields := cursor.fields[leaf := Leaf(JStr(value))];
    WrittenThrough@Before(trail, segments, value);
    return true;
  }

  lemma NoWayDown(cursor: Node, segments: seq<string>)
    requires cursor.Valid() && segments != []
    requires segments[0] in cursor.fields ==> |segments| > 1 && !cursor.fields[segments[0]].Child?
    ensures GetPath(cursor.Contents(), segments).None?
  {
    if segments[0] in cursor.fields {
      assert cursor.ValidSlot(segments[0]);
      assert cursor.Contents()[segments[0]] == cursor.SlotContents(segments[0]);
    }
  }

  // ----- Binding every task of a replay -----

  datatype Task = Task(taskId: string, request: Node)

  /** The bindings written into one copied request, stopping at the first that cannot be. */
  method BindRequest(request: Node, candidate: map<string, string>, bindings: seq<CandidateBinding>)
    returns (outcome: Result<(), BindError>)
    requires request.Valid()
    modifies request.Repr
    ensures request.Valid() && request.Repr == old(request.Repr)
    ensures var bound := BindAll(old(request.Contents()), candidate, bindings);
            if bound.Ok? then outcome == Ok(()) && request.Contents() == bound.value
            else outcome == Err(bound.error)
  {
    ghost var contents := request.Contents();
    for i := 0 to |bindings|
      invariant request.Valid() && request.Repr == old(request.Repr)
      invariant BindAll(contents, candidate, bindings) == BindAll(request.Contents(), candidate, bindings[i..])
    {
      var binding := bindings[i];
      assert bindings[i..][1..] == bindings[i + 1..];
      if binding.candidateKey !in candidate {
        return Err(MissingKey(binding.candidateKey));
      }
      var written := SetExistingPath(request, binding.requestPath, candidate[binding.candidateKey]);
      if !written {
        return Err(MissingPath(binding.requestPath));
      }
    }
    return Ok(());
  }

  /** One task's request copied and bound. */
  method BindTask(task: Task, candidate: map<string, string>, bindings: seq<CandidateBinding>)
    returns (bound: Result<Task, BindError>)
    requires task.request.Valid()
    ensures bound.Ok? ==> Bound(bound.value, task, candidate, bindings) && fresh(bound.value.request.Repr)
    ensures bound.Err? ==> BindAll(task.request.Contents(), candidate, bindings) == Err(bound.error)
  {
    var request := DeepCopy(task.request);
    var outcome := BindRequest(request, candidate, bindings);
    if outcome.Err? {
      return Err(outcome.error);
    }
    return Ok(Task(task.taskId, request));
  }

  /** Each task gets a request of its own with the candidate bound in; the given tasks are not touched,
      and the first task that cannot be bound gives the error. */
  method BindCandidate(tasks: seq<Task>, candidate: map<string, string>, bindings: seq<CandidateBinding>)
    returns (bound: Result<seq<Task>, BindError>)
    requires forall i | 0 <= i < |tasks| :: tasks[i].request.Valid()
    ensures bound.Ok? ==> |bound.value| == |tasks| && forall i | 0 <= i < |tasks| ::
                            Bound(bound.value[i], tasks[i], candidate, bindings) && fresh(bound.value[i].request.Repr)
    ensures bound.Ok? ==> forall i, j | 0 <= i < j < |bound.value| :: bound.value[i].request.Repr !! bound.value[j].request.Repr
    ensures bound.Err? ==> exists i | 0 <= i < |tasks| ::
                             && BindAll(tasks[i].request.Contents(), candidate, bindings) == Err(bound.error)
                             && forall j | 0 <= j < i :: BindAll(tasks[j].request.Contents(), candidate, bindings).Ok?
  {
    var out: seq<Task> := [];
    for i := 0 to |tasks|
      invariant |out| == i
      invariant forall j | 0 <= j < i :: Bound(out[j], tasks[j], candidate, bindings) && fresh(out[j].request.Repr)
      invariant forall j, k | 0 <= j < k < i :: out[j].request.Repr !! out[k].request.Repr
    {
      var task := BindTask(tasks[i], candidate, bindings);
      if task.Err? {
        return Err(task.error);
      }
      out := out + [task.value];
    }
    return Ok(out);
  }

  /** `task` is `source` with the candidate bound into its request. */
  ghost predicate Bound(task: Task, source: Task, candidate: map<string, string>, bindings: seq<CandidateBinding>)
    requires source.request.Valid()
    reads source.request, source.request.Repr, task.request, task.request.Repr
  {
    && task.taskId == source.taskId
    && task.request.Valid()
    && BindAll(source.request.Contents(), candidate, bindings) == Ok(task.request.Contents())
  }
}
