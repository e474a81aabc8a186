/** Candidate values written into request objects: lens laws, and independence of binding order. */
module Binding {
  import opened Counting
  import opened Prelude
  import opened Json

  type Object = map<string, Json>

  /** `path.split(".")`. */
  function SplitDots(s: string): (segments: seq<string>)
    ensures segments != []
  {
    if s == "" then [""]
    else
      var rest := SplitDots(s[1..]);
      if s[0] == '.' then [""] + rest else [[s[0]] + rest[0]] + rest[1..]
  }

  /** The value at a path of nested objects. */
  function GetPath(o: Object, path: seq<string>): Option<Json>
    requires path != []
    decreases |path|
  {
    if path[0] !in o then None
    else if |path| == 1 then Some(o[path[0]])
    else if o[path[0]].JObj? then GetPath(o[path[0]].fields, path[1..])
    else None
  }

  /** The object with an existing path overwritten; `None` when the path does not exist. */
  function SetPath(o: Object, path: seq<string>, value: string): Option<Object>
    requires path != []
    decreases |path|
  {
    if path[0] !in o then None
    else if |path| == 1 then Some(o[path[0] := JStr(value)])
    else if o[path[0]].JObj? then
      match SetPath(o[path[0]].fields, path[1..], value)
      case None => None
      case Some(inner) => Some(o[path[0] := JObj(inner)])
    else None
  }

  // ----- Lens laws -----

  /** Writing succeeds exactly where reading does. */
  lemma {:induction false} WritableIffReadable(o: Object, path: seq<string>, value: string)
    requires path != []
    ensures SetPath(o, path, value).Some? <==> GetPath(o, path).Some?
    decreases |path|
  {
    if path[0] in o && |path| > 1 && o[path[0]].JObj? {
      WritableIffReadable(o[path[0]].fields, path[1..], value);
    }
  }

  /** Reading a bound path gives the bound value. */
  lemma {:induction false} PutGet(o: Object, path: seq<string>, value: string)
    requires path != [] && SetPath(o, path, value).Some?
    ensures GetPath(SetPath(o, path, value).value, path) == Some(JStr(value))
    decreases |path|
  {
    if |path| > 1 {
      PutGet(o[path[0]].fields, path[1..], value);
    }
  }

  lemma RewriteSame(o: Object, key: string)
    requires key in o
    ensures o[key := o[key]] == o
  {
  }

  lemma RewriteTwice(o: Object, key: string, first: Json, second: Json)
    ensures o[key := first][key := second] == o[key := second]
  {
  }

  /** Writing back what is there changes nothing. */
  lemma {:induction false} GetPut(o: Object, path: seq<string>, value: string)
    requires path != [] && GetPath(o, path) == Some(JStr(value))
    ensures SetPath(o, path, value) == Some(o)
    decreases |path|
  {
    RewriteSame(o, path[0]);
    if |path| > 1 {
      GetPut(o[path[0]].fields, path[1..], value);
      assert JObj(o[path[0]].fields) == o[path[0]];
    }
  }

  /** The last write to a path wins. */
  lemma {:induction false} PutPut(o: Object, path: seq<string>, first: string, second: string)
    requires path != [] && SetPath(o, path, first).Some?
    ensures SetPath(SetPath(o, path, first).value, path, second) == SetPath(o, path, second)
    decreases |path|
  {
    if |path| > 1 {
      PutPut(o[path[0]].fields, path[1..], first, second);
      var inner := SetPath(o[path[0]].fields, path[1..], first).value;
      var rewritten := SetPath(inner, path[1..], second);
      if rewritten.Some? {
        RewriteTwice(o, path[0], JObj(inner), JObj(rewritten.value));
      }
    } else {
      RewriteTwice(o, path[0], JStr(first), JStr(second));
    }
  }

  /** Neither path leads through the other. */
  predicate Apart(p: seq<string>, q: seq<string>) {
    !(p <= q) && !(q <= p)
  }

  /** No key appears or disappears, except below the overwritten leaf. */
  lemma {:induction false} KeysKept(o: Object, path: seq<string>, value: string, q: seq<string>)
    requires path != [] && q != [] && SetPath(o, path, value).Some? && !(path < q)
    ensures GetPath(SetPath(o, path, value).value, q).Some? <==> GetPath(o, q).Some?
    decreases |path|
  {
    if |path| > 1 && |q| > 1 && q[0] == path[0] {
      assert path[1..] < q[1..] ==> path < q;
      KeysKept(o[path[0]].fields, path[1..], value, q[1..]);
    }
  }

  /** Paths apart from the written one keep their value. */
  lemma {:induction false} OthersKept(o: Object, path: seq<string>, value: string, q: seq<string>)
    requires path != [] && q != [] && SetPath(o, path, value).Some? && Apart(path, q)
    ensures GetPath(SetPath(o, path, value).value, q) == GetPath(o, q)
    decreases |path|
  {
    if |path| > 1 && |q| > 1 && q[0] == path[0] {
      TailsApart(path, q);
      OthersKept(o[path[0]].fields, path[1..], value, q[1..]);
    }
  }

  lemma TailsApart(p: seq<string>, q: seq<string>)
    requires Apart(p, q) && p != [] && q != [] && p[0] == q[0]
    ensures Apart(p[1..], q[1..]) && |p| > 1 && |q| > 1
  {
    assert p == [p[0]] + p[1..] && q == [q[0]] + q[1..];
  }

  /** Two writes in sequence, `None` as soon as one fails. */
  function SetTwo(o: Object, p: seq<string>, v: string, q: seq<string>, w: string): Option<Object>
    requires p != [] && q != []
  {
    match SetPath(o, p, v)
    case None => None
    case Some(o') => SetPath(o', q, w)
  }

  /** Writes to paths apart commute, including in whether they fail. */
  lemma {:induction false} WritesCommute(o: Object, p: seq<string>, v: string, q: seq<string>, w: string)
    requires p != [] && q != [] && Apart(p, q)
    ensures SetTwo(o, p, v, q, w) == SetTwo(o, q, w, p, v)
    decreases |p|
  {
    if p[0] == q[0] {
      TailsApart(p, q);
      if p[0] in o && o[p[0]].JObj? {
        WritesCommute(o[p[0]].fields, p[1..], v, q[1..], w);
        SameHeadWrites(o, p, v, q, w);
        SameHeadWrites(o, q, w, p, v);
      }
    } else {
      DifferentHeadWrites(o, p, v, q, w);
    }
  }

  lemma SameHeadWrites(o: Object, p: seq<string>, v: string, q: seq<string>, w: string)
    requires |p| > 1 && |q| > 1 && p[0] == q[0] && p[0] in o && o[p[0]].JObj?
    ensures var inner := SetTwo(o[p[0]].fields, p[1..], v, q[1..], w);
            SetTwo(o, p, v, q, w) == if inner.None? then None else Some(o[p[0] := JObj(inner.value)])
  {
    var first := SetPath(o[p[0]].fields, p[1..], v);
    if first.Some? {
      var inner := SetPath(first.value, q[1..], w);
      if inner.Some? {
        assert o[p[0] := JObj(first.value)][p[0] := JObj(inner.value)] == o[p[0] := JObj(inner.value)];
      }
    }
  }

  /** What a write does to the top level: one key gets a new value, or the write fails. */
  function HeadValue(o: Object, p: seq<string>, v: string): Option<Json>
    requires p != []
  {
    if p[0] !in o then None
    else if |p| == 1 then Some(JStr(v))
    else if o[p[0]].JObj? then
      match SetPath(o[p[0]].fields, p[1..], v)
      case None => None
      case Some(inner) => Some(JObj(inner))
    else None
  }

  lemma DifferentHeadWrites(o: Object, p: seq<string>, v: string, q: seq<string>, w: string)
    requires p != [] && q != [] && p[0] != q[0]
    ensures SetTwo(o, p, v, q, w) == SetTwo(o, q, w, p, v)
  {
    var a, b := HeadValue(o, p, v), HeadValue(o, q, w);
    if a.Some? && b.Some? {
      assert o[p[0] := a.value][q[0] := b.value] == o[q[0] := b.value][p[0] := a.value];
    }
  }

  // ----- Binding a whole candidate -----

  datatype CandidateBinding = CandidateBinding(candidateKey: string, requestPath: string) {
    function Path(): (path: seq<string>)
      ensures path != []
    {
      SplitDots(requestPath)
    }
  }

  datatype BindError = MissingKey(key: string) | MissingPath(path: string)

  function BindOne(o: Object, candidate: map<string, string>, b: CandidateBinding): Result<Object, BindError> {
    if b.candidateKey !in candidate then Err(MissingKey(b.candidateKey))
    else
      match SetPath(o, b.Path(), candidate[b.candidateKey])
      case None => Err(MissingPath(b.requestPath))
      case Some(o') => Ok(o')
  }

  /** All bindings applied in order, stopping at the first error. */
  function BindAll(o: Object, candidate: map<string, string>, bindings: seq<CandidateBinding>): Result<Object, BindError> {
    if bindings == [] then Ok(o)
    else
      match BindOne(o, candidate, bindings[0])
      case Err(e) => Err(e)
      case Ok(o') => BindAll(o', candidate, bindings[1..])
  }

  ghost predicate PrefixFree(bindings: seq<CandidateBinding>) {
    forall i, j | 0 <= i < j < |bindings| :: Apart(bindings[i].Path(), bindings[j].Path())
  }

  /** The same request, or an error on both sides (which error depends on the order). */
  ghost predicate SameOutcome(a: Result<Object, BindError>, b: Result<Object, BindError>) {
    a.Ok? == b.Ok? && (a.Ok? ==> a == b)
  }

  lemma NeighboursCommute(o: Object, candidate: map<string, string>, a: CandidateBinding, b: CandidateBinding,
                          rest: seq<CandidateBinding>)
    requires Apart(a.Path(), b.Path())
    ensures SameOutcome(BindAll(o, candidate, [a, b] + rest), BindAll(o, candidate, [b, a] + rest))
  {
    BindTwo(o, candidate, a, b, rest);
    BindTwo(o, candidate, b, a, rest);
    if a.candidateKey in candidate && b.candidateKey in candidate {
      WritesCommute(o, a.Path(), candidate[a.candidateKey], b.Path(), candidate[b.candidateKey]);
    }
  }

  lemma BindTwo(o: Object, candidate: map<string, string>, a: CandidateBinding, b: CandidateBinding,
                rest: seq<CandidateBinding>)
    ensures var r := BindAll(o, candidate, [a, b] + rest);
            if a.candidateKey in candidate && b.candidateKey in candidate then
              var two := SetTwo(o, a.Path(), candidate[a.candidateKey], b.Path(), candidate[b.candidateKey]);
              if two.None? then r.Err? else r == BindAll(two.value, candidate, rest)
            else r.Err?
  {
    hide SetPath, SplitDots;
    assert ([a, b] + rest)[1..] == [b] + rest && ([b] + rest)[1..] == rest;
  }

  lemma BindPrefix(o: Object, candidate: map<string, string>, b: CandidateBinding, rest: seq<CandidateBinding>)
    ensures BindAll(o, candidate, [b] + rest)
            == if BindOne(o, candidate, b).Err? then BindOne(o, candidate, b)
               else BindAll(BindOne(o, candidate, b).value, candidate, rest)
  {
    assert ([b] + rest)[1..] == rest;
  }

  /** A binding apart from those before it can move to the front. */
  lemma {:induction false} MoveToFront(o: Object, candidate: map<string, string>, front: seq<CandidateBinding>,
                                       b: CandidateBinding, rest: seq<CandidateBinding>)
    requires forall i | 0 <= i < |front| :: Apart(front[i].Path(), b.Path())
    ensures SameOutcome(BindAll(o, candidate, front + [b] + rest), BindAll(o, candidate, [b] + front + rest))
    decreases |front|
  {
    if front == [] {
      assert front + [b] + rest == [b] + front + rest;
    } else {
      var a, tail := front[0], front[1..];
      assert front + [b] + rest == [a] + (tail + [b] + rest);
      assert [a] + ([b] + tail + rest) == [a, b] + (tail + rest);
      assert [b] + front + rest == [b, a] + (tail + rest);
      BindPrefix(o, candidate, a, tail + [b] + rest);
      BindPrefix(o, candidate, a, [b] + tail + rest);
      if BindOne(o, candidate, a).Ok? {
        MoveToFront(BindOne(o, candidate, a).value, candidate, tail, b, rest);
      }
      NeighboursCommute(o, candidate, a, b, tail + rest);
    }
  }

  /** Prefix-free bindings succeed or fail together, with the same request, in any order. */
  lemma {:induction false} BindingOrderIrrelevant(o: Object, candidate: map<string, string>,
                                                  bindings: seq<CandidateBinding>, shuffled: seq<CandidateBinding>)
    requires PrefixFree(bindings) && multiset(bindings) == multiset(shuffled)
    ensures SameOutcome(BindAll(o, candidate, bindings), BindAll(o, candidate, shuffled))
    decreases |bindings|
  {
    assert |multiset(bindings)| == |multiset(shuffled)|;
    if bindings != [] {
      hide SetPath, SplitDots, BindOne;
      var b, rest := bindings[0], bindings[1..];
      var front, back := FindIn(bindings, shuffled);
      assert forall j | 0 <= j < |front| :: Apart(front[j].Path(), b.Path());
      MoveToFront(o, candidate, front, b, back);
      assert bindings == [b] + rest && [b] + front + back == [b] + (front + back);
      BindPrefix(o, candidate, b, rest);
      BindPrefix(o, candidate, b, front + back);
      if BindOne(o, candidate, b).Ok? {
        BindingOrderIrrelevant(BindOne(o, candidate, b).value, candidate, rest, front + back);
      }
    }
  }

  /** Where the first binding stands in the shuffled list; everything before it is apart from it. */
  lemma FindIn(bindings: seq<CandidateBinding>, shuffled: seq<CandidateBinding>)
    returns (front: seq<CandidateBinding>, back: seq<CandidateBinding>)
    requires bindings != [] && PrefixFree(bindings) && multiset(bindings) == multiset(shuffled)
    ensures shuffled == front + [bindings[0]] + back
    ensures multiset(bindings[1..]) == multiset(front + back) && PrefixFree(bindings[1..])
    ensures forall j | 0 <= j < |front| :: Apart(front[j].Path(), bindings[0].Path())
  {
    hide *;
    var b, rest := bindings[0], bindings[1..];
    front, back := SplitAround(bindings, shuffled);
    forall j | 0 <= j < |front| ensures Apart(front[j].Path(), b.Path()) {
      assert front[j] in multiset(front + back);
      assert front[j] in rest;
      RestApart(bindings, front[j]);
    }
    RestPrefixFree(bindings);
  }

  lemma SplitAround<T>(items: seq<T>, shuffled: seq<T>) returns (front: seq<T>, back: seq<T>)
    requires items != [] && multiset(items) == multiset(shuffled)
    ensures shuffled == front + [items[0]] + back
    ensures multiset(items[1..]) == multiset(front + back)
  {
    assert items[0] in multiset(items) && items[0] in multiset(shuffled);
    var i :| 0 <= i < |shuffled| && shuffled[i] == items[0];
    front, back := shuffled[..i], shuffled[i + 1..];
    SameRest(items, shuffled, i);
  }

  lemma RestApart(bindings: seq<CandidateBinding>, x: CandidateBinding)
    requires bindings != [] && PrefixFree(bindings) && x in bindings[1..]
    ensures Apart(x.Path(), bindings[0].Path())
  {
    hide SplitDots;
    var k :| 0 <= k < |bindings[1..]| && bindings[1..][k] == x;
    assert bindings[k + 1] == x;
  }

  lemma RestPrefixFree(bindings: seq<CandidateBinding>)
    requires bindings != [] && PrefixFree(bindings)
    ensures PrefixFree(bindings[1..])
  {
    hide SplitDots, Apart;
  }

  /** Every bound path of a prefix-free candidate ends up holding its value. */
  lemma {:induction false} BoundPathsHold(o: Object, candidate: map<string, string>, bindings: seq<CandidateBinding>, i: nat)
    requires PrefixFree(bindings) && BindAll(o, candidate, bindings).Ok? && i < |bindings|
    ensures bindings[i].candidateKey in candidate
    ensures GetPath(BindAll(o, candidate, bindings).value, bindings[i].Path()) == Some(JStr(candidate[bindings[i].candidateKey]))
    decreases |bindings|
  {
    var b := bindings[0];
    var o' := BindOne(o, candidate, b).value;
    if i > 0 {
      BoundPathsHold(o', candidate, bindings[1..], i - 1);
    } else {
      PutGet(o, b.Path(), candidate[b.candidateKey]);
      UntouchedPathKept(o', candidate, bindings[1..], b.Path());
    }
  }

  /** A path apart from every binding keeps its value. */
  lemma {:induction false} UntouchedPathKept(o: Object, candidate: map<string, string>, bindings: seq<CandidateBinding>,
                                             q: seq<string>)
    requires q != [] && BindAll(o, candidate, bindings).Ok?
    requires forall i | 0 <= i < |bindings| :: Apart(bindings[i].Path(), q)
    ensures GetPath(BindAll(o, candidate, bindings).value, q) == GetPath(o, q)
    decreases |bindings|
  {
    if bindings != [] {
      var b := bindings[0];
      OthersKept(o, b.Path(), candidate[b.candidateKey], q);
      UntouchedPathKept(BindOne(o, candidate, b).value, candidate, bindings[1..], q);
    }
  }

  /** The first binding that cannot be made decides the error: its key when the candidate lacks it, else its path when
      the request, as bound so far, lacks that. */
  lemma {:induction false} FirstFailureIs(o: Object, candidate: map<string, string>, bindings: seq<CandidateBinding>, i: nat)
    requires i < |bindings| && BindAll(o, candidate, bindings[..i]).Ok?
    ensures bindings[i].candidateKey !in candidate ==>
              BindAll(o, candidate, bindings) == Err(MissingKey(bindings[i].candidateKey))
    ensures bindings[i].candidateKey in candidate
            && GetPath(BindAll(o, candidate, bindings[..i]).value, bindings[i].Path()).None? ==>
              BindAll(o, candidate, bindings) == Err(MissingPath(bindings[i].requestPath))
    decreases |bindings|
  {
    hide SetPath, GetPath, SplitDots;
    var b := bindings[i];
    if i == 0 {
      if b.candidateKey in candidate {
        WritableIffReadable(o, b.Path(), candidate[b.candidateKey]);
      }
    } else {
      assert bindings[..i][1..] == bindings[1..][..i - 1];
      FirstFailureIs(BindOne(o, candidate, bindings[0]).value, candidate, bindings[1..], i - 1);
    }
  }
}
