/** The batched claim judge: retries against an arbitrary provider, and the merge of its verdicts. */
module ClaimJudge {
  import opened Counting
  import opened Grouping
  import opened Prelude

  datatype ClaimVerdict =
    | MissingCitation | UnresolvedCitation | Ungradable | ProxySupported | ProxyUnsupported
    | Supported | Unsupported | Unverifiable

  datatype Claim = Claim(claimId: string, resolved: seq<string>, deterministic: ClaimVerdict,
                         judged: Option<ClaimVerdict>, final_: ClaimVerdict)

  datatype JudgeVerdict = JudgeVerdict(claimId: string, verdict: ClaimVerdict, evidenceIds: seq<string>)

  datatype JudgeOutput = JudgeOutput(verdicts: seq<JudgeVerdict>, limitations: seq<string>)

  /** One answer of the provider: none, or a status with what the body parses to (`None` when it does not
      follow the response schema at all). */
  datatype Response = TransportFailure | Reply(status: int, body: Option<JudgeOutput>)

  datatype Config = Config(maxAttempts: nat, maxInputChars: nat, batchSize: nat) {
    ghost predicate Valid() {
      maxAttempts > 0 && batchSize > 0
    }
  }

  datatype JudgeError =
    | PayloadTooLarge
    | RequestFailed
    | StatusAfterRetries(status: int)
    | Rejected(status: int)
    | SchemaInvalid
    | NotExactlyOnce
    | OutsideEvidence

  // ----- One response -----

  predicate Retryable(status: int) {
    status == 408 || status == 409 || status == 429 || status >= 500
  }

  /** The schema admits only the three semantic verdicts. */
  predicate SchemaValid(output: JudgeOutput) {
    forall v | v in output.verdicts :: v.verdict == Supported || v.verdict == Unsupported || v.verdict == Unverifiable
  }

  function VerdictIds(verdicts: seq<JudgeVerdict>): seq<string> {
    seq(|verdicts|, i requires 0 <= i < |verdicts| => verdicts[i].claimId)
  }

  function ClaimIds(claims: seq<Claim>): seq<string> {
    seq(|claims|, i requires 0 <= i < |claims| => claims[i].claimId)
  }

  function IdSet(ids: seq<string>): set<string> {
    set id | id in ids
  }

  /** The resolved evidence of the claim with this id; the last one counts. */
  function EvidenceOf(claims: seq<Claim>, claimId: string): seq<string> {
    if claims == [] then []
    else if claims[|claims| - 1].claimId == claimId then claims[|claims| - 1].resolved
    else EvidenceOf(claims[..|claims| - 1], claimId)
  }

  predicate CitesOwn(batch: seq<Claim>, v: JudgeVerdict) {
    forall id | id in v.evidenceIds :: id in EvidenceOf(batch, v.claimId)
  }

  /** The checks on a 2xx body, in order. */
  function Inspect(batch: seq<Claim>, body: Option<JudgeOutput>): Result<JudgeOutput, JudgeError> {
    if body.None? || !SchemaValid(body.value) then Err(SchemaInvalid)
    else
      var ids := VerdictIds(body.value.verdicts);
      if |IdSet(ids)| != |ids| || IdSet(ids) != IdSet(ClaimIds(batch)) then Err(NotExactlyOnce)
      else if exists v | v in body.value.verdicts :: !CitesOwn(batch, v) then Err(OutsideEvidence)
      else Ok(body.value)
  }

  /** What a response means as the last one. */
  function Conclude(batch: seq<Claim>, r: Response): Result<JudgeOutput, JudgeError> {
    match r
    case TransportFailure => Err(RequestFailed)
    case Reply(status, body) =>
      if Retryable(status) then Err(StatusAfterRetries(status))
      else if !(200 <= status < 300) then Err(Rejected(status))
      else Inspect(batch, body)
  }

  /** Responses after which another attempt is made: everything but a good answer and an outright rejection. */
  predicate TryAgain(batch: seq<Claim>, r: Response) {
    var c := Conclude(batch, r);
    c.Err? && !c.error.Rejected?
  }

  /** Every requested claim once, each citing only what it was given. */
  ghost predicate Faithful(batch: seq<Claim>, verdicts: seq<JudgeVerdict>) {
    && AllDistinct(VerdictIds(verdicts))
    && IdSet(VerdictIds(verdicts)) == IdSet(ClaimIds(batch))
    && (forall v | v in verdicts :: CitesOwn(batch, v))
    && (forall v | v in verdicts :: v.verdict == Supported || v.verdict == Unsupported || v.verdict == Unverifiable)
  }

  lemma {:induction false} SetSizeBound(ids: seq<string>)
    ensures |IdSet(ids)| <= |ids|
  {
    if ids != [] {
      assert ids == [ids[0]] + ids[1..];
      SetSizeBound(ids[1..]);
      assert IdSet(ids) == {ids[0]} + IdSet(ids[1..]);
    }
  }

  /** As many different ids as ids means no repetition. */
  lemma {:induction false} FullSetDistinct(ids: seq<string>)
    requires |IdSet(ids)| == |ids|
    ensures AllDistinct(ids)
  {
    if ids != [] {
      var head, tail := ids[0], ids[1..];
      assert ids == [head] + tail;
      assert IdSet(ids) == {head} + IdSet(tail);
      SetSizeBound(tail);
      assert head !in IdSet(tail);
      assert head !in tail;
      hide IdSet;
      FullSetDistinct(tail);
    }
  }

  /** An accepted answer is faithful. */
  lemma AcceptedIsFaithful(batch: seq<Claim>, r: Response)
    requires Conclude(batch, r).Ok?
    ensures Faithful(batch, Conclude(batch, r).value.verdicts)
  {
    FullSetDistinct(VerdictIds(Conclude(batch, r).value.verdicts));
  }

  lemma {:induction false} DistinctFullSet(ids: seq<string>)
    requires AllDistinct(ids)
    ensures |IdSet(ids)| == |ids|
  {
    if ids != [] {
      var head, tail := ids[0], ids[1..];
      assert ids == [head] + tail && head !in tail;
      assert IdSet(ids) == {head} + IdSet(tail);
      assert head !in IdSet(tail);
      hide IdSet;
      DistinctFullSet(tail);
    }
  }

  /** An answer is accepted exactly when it came with a 2xx status, follows the schema and is faithful, whichever of
      the three verdicts it gives. */
  lemma AcceptedIff(batch: seq<Claim>, r: Response, output: JudgeOutput)
    ensures Conclude(batch, r) == Ok(output)
            <==> r.Reply? && 200 <= r.status < 300 && r.body == Some(output) && Faithful(batch, output.verdicts)
  {
    if r.Reply? && 200 <= r.status < 300 && r.body == Some(output) && Faithful(batch, output.verdicts) {
      DistinctFullSet(VerdictIds(output.verdicts));
    }
    if Conclude(batch, r) == Ok(output) {
      AcceptedIsFaithful(batch, r);
    }
  }

  /** Which of its faults a 2xx answer is rejected for: the schema before the ids, the ids before the evidence. */
  lemma RejectedFor(batch: seq<Claim>, r: Response)
    requires r.Reply? && 200 <= r.status < 300
    ensures Conclude(batch, r) == Err(SchemaInvalid)
            <==> r.body.None? || exists v | v in r.body.value.verdicts ::
                   v.verdict != Supported && v.verdict != Unsupported && v.verdict != Unverifiable
    ensures Conclude(batch, r) == Err(NotExactlyOnce)
            <==> Conclude(batch, r) != Err(SchemaInvalid)
                 && !(AllDistinct(VerdictIds(r.body.value.verdicts))
                      && forall id :: id in VerdictIds(r.body.value.verdicts) <==> id in ClaimIds(batch))
    ensures Conclude(batch, r) == Err(OutsideEvidence)
            <==> Conclude(batch, r) != Err(SchemaInvalid) && Conclude(batch, r) != Err(NotExactlyOnce)
                 && exists v, id | v in r.body.value.verdicts :: id in v.evidenceIds && id !in EvidenceOf(batch, v.claimId)
  {
    if r.body.Some? {
      var ids := VerdictIds(r.body.value.verdicts);
      SameIdsIff(ids, ClaimIds(batch));
      if AllDistinct(ids) {
        DistinctFullSet(ids);
      }
      if |IdSet(ids)| == |ids| {
        FullSetDistinct(ids);
      }
    }
  }

  lemma SameIdsIff(a: seq<string>, b: seq<string>)
    ensures IdSet(a) == IdSet(b) <==> forall id :: id in a <==> id in b
  {
    assert forall id :: id in a <==> id in IdSet(a);
    assert forall id :: id in b <==> id in IdSet(b);
  }

  /** Another attempt follows a request that got no answer, a status that asks to come back, or a 2xx answer that
      is not faithful. */
  lemma RetriedIff(batch: seq<Claim>, r: Response)
    ensures TryAgain(batch, r)
            <==> || r.TransportFailure?
                 || r.status == 408 || r.status == 409 || r.status == 429 || r.status >= 500
                 || (200 <= r.status < 300 && !(r.body.Some? && Faithful(batch, r.body.value.verdicts)))
  {
    if r.Reply? && r.body.Some? {
      AcceptedIff(batch, r, r.body.value);
    }
  }

  // ----- One batch -----

  datatype Message = SystemPrompt | Packet(batch: seq<Claim>) | Correction(error: JudgeError)

  /** The messages of attempt `n` (from 0): a rejected answer is followed by its correction, which stays
      through attempts that got no answer to reject. */
  function MessagesAt(batch: seq<Claim>, responses: nat -> Response, first: nat, n: nat): (messages: seq<Message>)
    ensures 2 <= |messages| <= 3 && messages[0] == SystemPrompt && messages[1] == Packet(batch)
  {
    if n == 0 then [SystemPrompt, Packet(batch)]
    else
      var r := responses(first + n - 1);
      if r.Reply? && !Retryable(r.status) && Conclude(batch, r).Err? then
        [SystemPrompt, Packet(batch), Correction(Conclude(batch, r).error)]
      else MessagesAt(batch, responses, first, n - 1)
  }

  function Power2(n: nat): (p: nat)
    ensures p > 0
  {
    if n == 0 then 1 else 2 * Power2(n - 1)
  }

  /** `0.25 * 2 ** (attempt - 1)`, attempts counted from 0 here. */
  function Backoff(attempt: nat): real {
    0.25 * Power2(attempt) as real
  }

  function Backoffs(n: nat): (sleeps: seq<real>)
    ensures |sleeps| == n
  {
    seq(n, i requires 0 <= i < n => Backoff(i))
  }

  function SumReal(s: seq<real>): real {
    if s == [] then 0.0 else SumReal(s[..|s| - 1]) + s[|s| - 1]
  }

  /** Attempt `i` did not settle the batch. */
  predicate Retried(batch: seq<Claim>, responses: nat -> Response, first: nat, i: nat) {
    TryAgain(batch, responses(first + i))
  }

  /** What the attempts on a batch look like and how they end. */
  ghost predicate BatchRun(batch: seq<Claim>, config: Config, size: seq<Claim> -> nat, responses: nat -> Response, first: nat,
                           r: Result<JudgeOutput, JudgeError>, requests: seq<seq<Message>>, sleeps: seq<real>)
  {
    if size(batch) > config.maxInputChars then
      r == Err(PayloadTooLarge) && requests == [] && sleeps == []
    else
      && 0 < |requests| <= config.maxAttempts
      && (forall i | 0 <= i < |requests| :: requests[i] == MessagesAt(batch, responses, first, i))
      && (forall i | 0 <= i < |requests| - 1 :: Retried(batch, responses, first, i))
      && sleeps == Backoffs(|requests| - 1)
      && r == Conclude(batch, responses(first + |requests| - 1))
      && (|requests| == config.maxAttempts || !TryAgain(batch, responses(first + |requests| - 1)))
  }

  /** `_judge_claim_batch`; `size` is the length of the rendered payload. */
  method JudgeBatch(batch: seq<Claim>, config: Config, size: seq<Claim> -> nat, responses: nat -> Response, first: nat)
    returns (r: Result<JudgeOutput, JudgeError>, requests: seq<seq<Message>>, sleeps: seq<real>)
    requires config.Valid()
    ensures BatchRun(batch, config, size, responses, first, r, requests, sleeps)
  {
    requests, sleeps := [], [];
    if size(batch) > config.maxInputChars {
      return Err(PayloadTooLarge), [], [];
    }
    var messages := [SystemPrompt, Packet(batch)];
    assert Attempting(batch, responses, first, 0, messages, requests, sleeps) && config.maxAttempts > 0;
    hide *;
    for attempt := 1 to config.maxAttempts + 1
      invariant attempt <= config.maxAttempts && Attempting(batch, responses, first, attempt - 1, messages, requests, sleeps)
    {
      var response := responses(first + attempt - 1);
      OneAttempt(batch, config, size, responses, first, attempt - 1, messages, requests, sleeps);
      requests := requests + [messages];
      if response.TransportFailure? {
        if attempt == config.maxAttempts {
          return Err(RequestFailed), requests, sleeps;
        }
        sleeps := sleeps + [Backoff(attempt - 1)];
        continue;
      }
      if Retryable(response.status) {
        if attempt == config.maxAttempts {
          return Err(StatusAfterRetries(response.status)), requests, sleeps;
        }
        sleeps := sleeps + [Backoff(attempt - 1)];
        continue;
      }
      if !(200 <= response.status < 300) {
        return Err(Rejected(response.status)), requests, sleeps;
      }
      var inspected := Inspect(batch, response.body);
      if inspected.Ok? || attempt == config.maxAttempts {
        return inspected, requests, sleeps;
      }
      messages := [messages[0], messages[1], Correction(inspected.error)];
      sleeps := sleeps + [Backoff(attempt - 1)];
    }
    assert false;
  }

  /** The loop's state before attempt `n`, attempts counted from 0. */
  ghost predicate Attempting(batch: seq<Claim>, responses: nat -> Response, first: nat, n: nat, messages: seq<Message>,
                             requests: seq<seq<Message>>, sleeps: seq<real>)
  {
    && |requests| == n && |messages| >= 2 && messages == MessagesAt(batch, responses, first, n)
    && (forall i | 0 <= i < n :: requests[i] == MessagesAt(batch, responses, first, i))
    && (forall i | 0 <= i < n :: Retried(batch, responses, first, i))
    && sleeps == Backoffs(n)
  }

  /** What an attempt's response means for the loop: it goes on, or the batch is settled. */
  lemma OneAttempt(batch: seq<Claim>, config: Config, size: seq<Claim> -> nat, responses: nat -> Response, first: nat, n: nat,
                   messages: seq<Message>, before: seq<seq<Message>>, sleeps: seq<real>)
    requires Attempting(batch, responses, first, n, messages, before, sleeps)
    requires n < config.maxAttempts && size(batch) <= config.maxInputChars
    ensures |messages| >= 2
    ensures var response, requests, more := responses(first + n), before + [messages], sleeps + [Backoff(n)];
            if response.TransportFailure? || Retryable(response.status) then
              && Attempting(batch, responses, first, n + 1, messages, requests, more)
              && (n + 1 == config.maxAttempts ==>
                    BatchRun(batch, config, size, responses, first,
                             Err(if response.TransportFailure? then RequestFailed else StatusAfterRetries(response.status)),
                             requests, sleeps))
            else if !(200 <= response.status < 300) then
              BatchRun(batch, config, size, responses, first, Err(Rejected(response.status)), requests, sleeps)
            else
              var inspected := Inspect(batch, response.body);
              && (inspected.Err? ==>
                    Attempting(batch, responses, first, n + 1, [messages[0], messages[1], Correction(inspected.error)],
                               requests, more))
              && (inspected.Ok? || n + 1 == config.maxAttempts ==>
                    BatchRun(batch, config, size, responses, first, inspected, requests, sleeps))
  {
    assert |messages| >= 2 && messages == MessagesAt(batch, responses, first, n);
    hide *;
    var response := responses(first + n);
    Settles(batch, config, size, responses, first, n, messages, before, sleeps);
    if TryAgain(batch, response) {
      GoesOn(batch, responses, first, n, messages, before, sleeps);
    }
    NextMessages(batch, responses, first, n);
    ConcludeCases(batch, response);
  }

  lemma ConcludeCases(batch: seq<Claim>, r: Response)
    ensures if r.TransportFailure? then TryAgain(batch, r) && Conclude(batch, r) == Err(RequestFailed)
            else if Retryable(r.status) then TryAgain(batch, r) && Conclude(batch, r) == Err(StatusAfterRetries(r.status))
            else if !(200 <= r.status < 300) then !TryAgain(batch, r) && Conclude(batch, r) == Err(Rejected(r.status))
            else Conclude(batch, r) == Inspect(batch, r.body) && (TryAgain(batch, r) <==> Inspect(batch, r.body).Err?)
  {
  }

  lemma Settles(batch: seq<Claim>, config: Config, size: seq<Claim> -> nat, responses: nat -> Response, first: nat, n: nat,
                messages: seq<Message>, before: seq<seq<Message>>, sleeps: seq<real>)
    requires Attempting(batch, responses, first, n, messages, before, sleeps)
    requires n < config.maxAttempts && size(batch) <= config.maxInputChars
    ensures n + 1 == config.maxAttempts || !TryAgain(batch, responses(first + n)) ==>
              BatchRun(batch, config, size, responses, first, Conclude(batch, responses(first + n)), before + [messages], sleeps)
  {
    hide TryAgain, Conclude, MessagesAt;
  }

  lemma NextMessages(batch: seq<Claim>, responses: nat -> Response, first: nat, n: nat)
    ensures var r, now := responses(first + n), MessagesAt(batch, responses, first, n);
            MessagesAt(batch, responses, first, n + 1)
            == if r.Reply? && !Retryable(r.status) && Conclude(batch, r).Err? then
                 [now[0], now[1], Correction(Conclude(batch, r).error)]
               else now
  {
    assert first + (n + 1) - 1 == first + n;
  }

  lemma GoesOn(batch: seq<Claim>, responses: nat -> Response, first: nat, n: nat,
               messages: seq<Message>, before: seq<seq<Message>>, sleeps: seq<real>)
    requires Attempting(batch, responses, first, n, messages, before, sleeps) && TryAgain(batch, responses(first + n))
    ensures Attempting(batch, responses, first, n + 1, MessagesAt(batch, responses, first, n + 1),
                       before + [messages], sleeps + [Backoff(n)])
  {
    hide TryAgain, Conclude, Backoff, MessagesAt;
    assert Retried(batch, responses, first, n);
  }

  /** Attempt `i` brought no answer whose content could be rejected. */
  predicate Unanswered(responses: nat -> Response, first: nat, i: nat) {
    var r := responses(first + i);
    r.TransportFailure? || !(200 <= r.status < 300)
  }

  /** The attempt numbered `n` carries the correction of the latest answer rejected before it, and no other. */
  lemma {:induction false} CorrectsLatest(batch: seq<Claim>, responses: nat -> Response, first: nat, n: nat, k: nat)
    requires forall i | 0 <= i < n :: Retried(batch, responses, first, i)
    requires k < n && responses(first + k).Reply? && 200 <= responses(first + k).status < 300
    requires forall m: nat | k < m < n :: Unanswered(responses, first, m)
    ensures Conclude(batch, responses(first + k)).Err?
    ensures MessagesAt(batch, responses, first, n)
            == [SystemPrompt, Packet(batch), Correction(Conclude(batch, responses(first + k)).error)]
    decreases n
  {
    hide Inspect;
    assert Retried(batch, responses, first, k) && Retried(batch, responses, first, n - 1);
    if k < n - 1 {
      CorrectsLatest(batch, responses, first, n - 1, k);
      var last: nat := n - 1;
      assert Unanswered(responses, first, last);
    }
  }

  /** Without a rejected answer before it an attempt carries no correction. */
  lemma {:induction false} NothingToCorrect(batch: seq<Claim>, responses: nat -> Response, first: nat, n: nat)
    requires forall i | 0 <= i < n :: Retried(batch, responses, first, i)
    requires forall m: nat | m < n :: Unanswered(responses, first, m)
    ensures MessagesAt(batch, responses, first, n) == [SystemPrompt, Packet(batch)]
  {
    hide Inspect;
    if n > 0 {
      NothingToCorrect(batch, responses, first, n - 1);
      var last: nat := n - 1;
      assert Retried(batch, responses, first, last) && Unanswered(responses, first, last);
    }
  }

  // ----- Bounds on one batch -----

  lemma {:induction false} SumBackoffs(n: nat)
    ensures SumReal(Backoffs(n)) == 0.25 * (Power2(n) as real - 1.0)
  {
    if n > 0 {
      SumBackoffs(n - 1);
      assert Backoffs(n)[..n - 1] == Backoffs(n - 1);
    }
  }

  lemma {:induction false} Power2Monotone(a: nat, b: nat)
    requires a <= b
    ensures Power2(a) <= Power2(b)
    decreases b
  {
    if a < b {
      Power2Monotone(a, b - 1);
    }
  }

  /** The longest a batch can sleep: `0.25 * (2 ** (max_attempts - 1) - 1)`. */
  function MaxSleep(maxAttempts: nat): real
    requires maxAttempts > 0
  {
    0.25 * (Power2(maxAttempts - 1) as real - 1.0)
  }

  lemma BatchBounds(batch: seq<Claim>, config: Config, size: seq<Claim> -> nat, responses: nat -> Response, first: nat,
                    r: Result<JudgeOutput, JudgeError>, requests: seq<seq<Message>>, sleeps: seq<real>)
    requires config.Valid() && BatchRun(batch, config, size, responses, first, r, requests, sleeps)
    ensures |requests| <= config.maxAttempts && SumReal(sleeps) <= MaxSleep(config.maxAttempts)
    ensures r.Ok? ==> Faithful(batch, r.value.verdicts)
    ensures forall m | m in requests :: 2 <= |m| <= 3 && m[0] == SystemPrompt && m[1] == Packet(batch)
  {
    hide TryAgain, Conclude, Faithful;
    if size(batch) > config.maxInputChars {
      Power2Monotone(0, config.maxAttempts - 1);
    } else {
      SumBackoffs(|requests| - 1);
      Power2Monotone(|requests| - 1, config.maxAttempts - 1);
      if r.Ok? {
        AcceptedIsFaithful(batch, responses(first + |requests| - 1));
      }
    }
  }

  /** The first answer that is not to be retried settles the batch; without one the last attempt does. */
  lemma FirstSettlingAnswer(batch: seq<Claim>, config: Config, size: seq<Claim> -> nat, responses: nat -> Response, first: nat,
                            r: Result<JudgeOutput, JudgeError>, requests: seq<seq<Message>>, sleeps: seq<real>, n: nat)
    requires BatchRun(batch, config, size, responses, first, r, requests, sleeps) && size(batch) <= config.maxInputChars
    requires n < config.maxAttempts && forall i | 0 <= i < n :: Retried(batch, responses, first, i)
    requires n + 1 == config.maxAttempts || !Retried(batch, responses, first, n)
    ensures |requests| == n + 1 && r == Conclude(batch, responses(first + n))
  {
    hide TryAgain, Conclude;
    assert |requests| <= n ==> Retried(batch, responses, first, |requests| - 1);
    assert |requests| > n + 1 ==> Retried(batch, responses, first, n);
  }

  // ----- All batches -----

  predicate IsGradable(c: Claim) {
    c.resolved != []
  }

  function Gradable(claims: seq<Claim>): seq<Claim> {
    Filter(claims, IsGradable)
  }

  /** How many batches `n` claims make. */
  function BatchesFor(n: nat, batchSize: nat): nat
    requires batchSize > 0
  {
    if n == 0 then 0 else if n <= batchSize then 1 else 1 + BatchesFor(n - batchSize, batchSize)
  }

  /** It is the ceiling of `n / batchSize`. */
  lemma {:induction false} BatchesAreCeiling(n: nat, batchSize: nat)
    requires batchSize > 0
    ensures n <= BatchesFor(n, batchSize) * batchSize < n + batchSize
  {
    if n > batchSize {
      BatchesAreCeiling(n - batchSize, batchSize);
      var rest := BatchesFor(n - batchSize, batchSize);
      assert (1 + rest) * batchSize == batchSize + rest * batchSize;
    }
  }

  /** Every claim of the list once, and every citation among that claim's own resolved evidence. */
  ghost predicate Covers(claims: seq<Claim>, verdicts: seq<JudgeVerdict>) {
    && AllDistinct(VerdictIds(verdicts))
    && IdSet(VerdictIds(verdicts)) == IdSet(ClaimIds(claims))
    && forall v | v in verdicts :: OwnCitations(claims, v)
  }

  ghost predicate OwnCitations(claims: seq<Claim>, v: JudgeVerdict) {
    exists c | c in claims :: c.claimId == v.claimId && forall id | id in v.evidenceIds :: id in c.resolved
  }

  lemma {:induction false} EvidenceIsOwn(claims: seq<Claim>, claimId: string)
    requires claimId in ClaimIds(claims)
    ensures exists c | c in claims :: c.claimId == claimId && EvidenceOf(claims, claimId) == c.resolved
  {
    var last := claims[|claims| - 1];
    if last.claimId != claimId {
      var i :| 0 <= i < |claims| && ClaimIds(claims)[i] == claimId;
      assert ClaimIds(claims[..|claims| - 1])[i] == claimId;
      EvidenceIsOwn(claims[..|claims| - 1], claimId);
    } else {
      assert last in claims;
    }
  }

  lemma FaithfulCovers(batch: seq<Claim>, verdicts: seq<JudgeVerdict>)
    requires Faithful(batch, verdicts)
    ensures Covers(batch, verdicts)
  {
    forall v | v in verdicts ensures OwnCitations(batch, v) {
      var i :| 0 <= i < |verdicts| && verdicts[i] == v;
      assert VerdictIds(verdicts)[i] in IdSet(VerdictIds(verdicts));
      EvidenceIsOwn(batch, v.claimId);
    }
  }

  /** Covering two lists of claims with no id in common covers both. */
  lemma CoversAppend(a: seq<Claim>, b: seq<Claim>, va: seq<JudgeVerdict>, vb: seq<JudgeVerdict>)
    requires Covers(a, va) && Covers(b, vb) && IdSet(ClaimIds(a)) !! IdSet(ClaimIds(b))
    ensures Covers(a + b, va + vb)
  {
    hide AllDistinct, IdSet;
    assert VerdictIds(va + vb) == VerdictIds(va) + VerdictIds(vb) && ClaimIds(a + b) == ClaimIds(a) + ClaimIds(b);
    IdsAppend(ClaimIds(a), ClaimIds(b));
    IdsAppend(VerdictIds(va), VerdictIds(vb));
    assert forall v | v in va :: OwnCitations(a + b, v);
    assert forall v | v in vb :: OwnCitations(a + b, v);
  }

  lemma IdsAppend(a: seq<string>, b: seq<string>)
    ensures IdSet(a + b) == IdSet(a) + IdSet(b)
    ensures AllDistinct(a) && AllDistinct(b) && IdSet(a) !! IdSet(b) ==> AllDistinct(a + b)
  {
    if AllDistinct(a) && AllDistinct(b) && IdSet(a) !! IdSet(b) {
      forall i, j | 0 <= i < j < |a + b| ensures (a + b)[i] != (a + b)[j] {
        if i < |a| <= j {
          assert a[i] in IdSet(a) && b[j - |a|] in IdSet(b);
        }
      }
    }
  }

  lemma SameIds(a: seq<string>, b: seq<string>)
    requires IdSet(a) == IdSet(b)
    ensures forall id :: id in a <==> id in b
  {
    assert forall id :: id in a <==> id in IdSet(a);
    assert forall id :: id in b <==> id in IdSet(b);
  }

  lemma ApartIds(claims: seq<Claim>, i: nat, j: nat)
    requires AllDistinct(ClaimIds(claims)) && i <= j <= |claims|
    ensures IdSet(ClaimIds(claims[..i])) !! IdSet(ClaimIds(claims[i..j]))
    ensures claims[..i] + claims[i..j] == claims[..j]
  {
    forall id | id in ClaimIds(claims[..i]) ensures id !in ClaimIds(claims[i..j]) {
      var x :| 0 <= x < i && ClaimIds(claims[..i])[x] == id;
      assert ClaimIds(claims)[x] == id;
      assert forall y | 0 <= y < j - i :: ClaimIds(claims[i..j])[y] == ClaimIds(claims)[i + y];
    }
  }

  // ----- The judge -----

  /** How a whole judgement is bounded, after `runs` batches. */
  ghost predicate WithinBounds(config: Config, runs: nat, attempts: nat, sleeps: seq<real>)
    requires config.Valid()
  {
    attempts <= runs * config.maxAttempts && SumReal(sleeps) <= runs as real * MaxSleep(config.maxAttempts)
  }

  lemma BoundsJoin(config: Config, runs: nat, attempts: nat, sleeps: seq<real>, requests: nat, more: seq<real>)
    requires config.Valid() && WithinBounds(config, runs, attempts, sleeps)
    requires requests <= config.maxAttempts && SumReal(more) <= MaxSleep(config.maxAttempts)
    ensures WithinBounds(config, runs + 1, requests + attempts, more + sleeps)
  {
    hide SumReal, MaxSleep;
    SumAppend(more, sleeps);
    OneMore(runs, config.maxAttempts, MaxSleep(config.maxAttempts));
  }

  lemma OneMore(runs: nat, attempts: nat, sleep: real)
    ensures (runs + 1) * attempts == runs * attempts + attempts
    ensures (runs + 1) as real * sleep == runs as real * sleep + sleep
  {
  }

  lemma {:induction false} SumAppend(a: seq<real>, b: seq<real>)
    ensures SumReal(a + b) == SumReal(a) + SumReal(b)
  {
    if b == [] {
      assert a + b == a;
    } else {
      SumAppend(a, b[..|b| - 1]);
      assert (a + b)[..|a + b| - 1] == a + b[..|b| - 1];
    }
  }

  /** The attempts from number `n` (from 0) on: how they end and how many are made in all. */
  function Settle(batch: seq<Claim>, config: Config, responses: nat -> Response, first: nat, n: nat)
    : (Result<JudgeOutput, JudgeError>, nat)
    decreases config.maxAttempts - n
  {
    if n + 1 >= config.maxAttempts || !Retried(batch, responses, first, n) then (Conclude(batch, responses(first + n)), n + 1)
    else Settle(batch, config, responses, first, n + 1)
  }

  lemma {:induction false} BatchSettles(batch: seq<Claim>, config: Config, size: seq<Claim> -> nat, responses: nat -> Response,
                                        first: nat, r: Result<JudgeOutput, JudgeError>, requests: seq<seq<Message>>,
                                        sleeps: seq<real>, n: nat)
    requires BatchRun(batch, config, size, responses, first, r, requests, sleeps) && size(batch) <= config.maxInputChars
    requires n < |requests|
    ensures Settle(batch, config, responses, first, n) == (r, |requests|)
    decreases |requests| - n
  {
    hide TryAgain, Conclude;
    if n + 1 < |requests| {
      assert Retried(batch, responses, first, n);
      BatchSettles(batch, config, size, responses, first, r, requests, sleeps, n + 1);
    }
  }

  /** What judging a list of claims in batches comes to. */
  datatype Judgement = Judgement(verdicts: seq<JudgeVerdict>, limitations: seq<string>, error: Option<JudgeError>,
                                 attempts: nat, sleeps: seq<real>)

  function Join(a: Judgement, b: Judgement): Judgement {
    Judgement(a.verdicts + b.verdicts, a.limitations + b.limitations, b.error, a.attempts + b.attempts, a.sleeps + b.sleeps)
  }

  /** One batch from response `first` on. */
  function JudgeOne(batch: seq<Claim>, config: Config, size: seq<Claim> -> nat, responses: nat -> Response, first: nat): Judgement {
    if size(batch) > config.maxInputChars then Judgement([], [], Some(PayloadTooLarge), 0, [])
    else
      var (r, used) := Settle(batch, config, responses, first, 0);
      var sleeps := Backoffs(if used > 0 then used - 1 else 0);
      match r
      case Ok(output) => Judgement(output.verdicts, output.limitations, None, used, sleeps)
      case Err(e) => Judgement([], [], Some(e), used, sleeps)
  }

  /** Batch after batch, up to the first that fails. */
  function JudgeAll(claims: seq<Claim>, config: Config, size: seq<Claim> -> nat, responses: nat -> Response, first: nat): Judgement
    requires config.Valid()
  {
    if claims == [] then Judgement([], [], None, 0, [])
    else
      var n := if config.batchSize <= |claims| then config.batchSize else |claims|;
      var one := JudgeOne(claims[..n], config, size, responses, first);
      if one.error.Some? then one
      else Join(one, JudgeAll(claims[n..], config, size, responses, first + one.attempts))
  }

  /** Where the batch that starts at `offset` ends. */
  function BatchEnd(n: nat, offset: nat, size: nat): (next: nat)
    requires offset < n && size > 0
    ensures offset < next <= n
  {
    if offset + size <= n then offset + size else n
  }

  /** `judge`: the gradable claims in batches, stopping at the first batch that cannot be judged. */
  method Judge(claims: seq<Claim>, config: Config, size: seq<Claim> -> nat, responses: nat -> Response)
    returns (r: Result<JudgeOutput, JudgeError>, attempts: nat, sleeps: seq<real>)
    requires config.Valid()
    ensures Reported(JudgeAll(Gradable(claims), config, size, responses, 0), r, attempts, sleeps)
  {
    hide JudgeAll, Gradable, Distinct;
    var error, verdicts, limitations;
    error, verdicts, limitations, attempts, sleeps := JudgeBatches(Gradable(claims), config, size, responses);
    r := if error.Some? then Err(error.value) else Ok(JudgeOutput(verdicts, Distinct(limitations)));
  }

  /** The loop over the batches. */
  method JudgeBatches(gradable: seq<Claim>, config: Config, size: seq<Claim> -> nat, responses: nat -> Response)
    returns (error: Option<JudgeError>, verdicts: seq<JudgeVerdict>, limitations: seq<string>, attempts: nat, sleeps: seq<real>)
    requires config.Valid()
    ensures Outcome(JudgeAll(gradable, config, size, responses, 0), error, verdicts, limitations, attempts, sleeps)
  {
    assert config.batchSize > 0;
    hide *;
    error, verdicts, limitations, attempts, sleeps := None, [], [], 0, [];
    var offset := 0;
    ghost var all := JudgeAll(gradable, config, size, responses, 0);
    JudgingStarts(gradable, config, size, responses);
    while offset < |gradable|
      invariant offset <= |gradable|
      invariant Judging(gradable, offset, config, size, responses, verdicts, limitations, attempts, sleeps, all)
      decreases |gradable| - offset
    {
      var next := BatchEnd(|gradable|, offset, config.batchSize);
      var output, requests, more := JudgeBatch(gradable[offset..next], config, size, responses, attempts);
      JudgingStep(gradable, offset, next, config, size, responses, verdicts, limitations, attempts, sleeps, all,
                  output, requests, more);
      attempts, sleeps := attempts + |requests|, sleeps + more;
      if output.Err? {
        return Some(output.error), verdicts, limitations, attempts, sleeps;
      }
      verdicts, limitations := verdicts + output.value.verdicts, limitations + output.value.limitations;
      offset := next;
    }
    JudgingEnds(gradable, offset, config, size, responses, verdicts, limitations, attempts, sleeps, all);
    return None, verdicts, limitations, attempts, sleeps;
  }

  /** What the loop leaves of a judgement: its error, or everything the batches answered. */
  ghost predicate Outcome(j: Judgement, error: Option<JudgeError>, verdicts: seq<JudgeVerdict>, limitations: seq<string>,
                          attempts: nat, sleeps: seq<real>)
  {
    && j.error == error && j.attempts == attempts && j.sleeps == sleeps
    && (error.None? ==> j.verdicts == verdicts && j.limitations == limitations)
  }

  /** A judgement as `judge` returns it: the error, or the verdicts with each limitation once. */
  ghost predicate Reported(j: Judgement, r: Result<JudgeOutput, JudgeError>, attempts: nat, sleeps: seq<real>) {
    && attempts == j.attempts && sleeps == j.sleeps
    && r == if j.error.Some? then Err(j.error.value) else Ok(JudgeOutput(j.verdicts, Distinct(j.limitations)))
  }

  /** What is judged so far, joined with the judgement of the rest, is the whole judgement. */
  ghost predicate Judging(gradable: seq<Claim>, offset: nat, config: Config, size: seq<Claim> -> nat, responses: nat -> Response,
                          verdicts: seq<JudgeVerdict>, limitations: seq<string>, attempts: nat, sleeps: seq<real>, all: Judgement)
  {
    && config.Valid() && offset <= |gradable|
    && all == Join(Judgement(verdicts, limitations, None, attempts, sleeps),
                   JudgeAll(gradable[offset..], config, size, responses, attempts))
  }

  lemma JudgingStarts(gradable: seq<Claim>, config: Config, size: seq<Claim> -> nat, responses: nat -> Response)
    requires config.Valid()
    ensures Judging(gradable, 0, config, size, responses, [], [], 0, [], JudgeAll(gradable, config, size, responses, 0))
  {
    hide JudgeAll;
    assert gradable[0..] == gradable;
    JoinUnit(JudgeAll(gradable, config, size, responses, 0));
  }

  lemma JudgingStep(gradable: seq<Claim>, offset: nat, next: nat, config: Config, size: seq<Claim> -> nat,
                    responses: nat -> Response, verdicts: seq<JudgeVerdict>, limitations: seq<string>, attempts: nat,
                    sleeps: seq<real>, all: Judgement,
                    r: Result<JudgeOutput, JudgeError>, requests: seq<seq<Message>>, more: seq<real>)
    requires Judging(gradable, offset, config, size, responses, verdicts, limitations, attempts, sleeps, all)
    requires offset < |gradable|
    requires next == BatchEnd(|gradable|, offset, config.batchSize)
    requires BatchRun(gradable[offset..next], config, size, responses, attempts, r, requests, more)
    ensures if r.Err? then
              Outcome(all, Some(r.error), verdicts, limitations, attempts + |requests|, sleeps + more)
            else
              Judging(gradable, next, config, size, responses, verdicts + r.value.verdicts, limitations + r.value.limitations,
                      attempts + |requests|, sleeps + more, all)
  {
    hide JudgeAll, BatchRun;
    var sofar := Judgement(verdicts, limitations, None, attempts, sleeps);
    BatchIs(gradable, offset, next, config, size, responses, attempts, r, requests, more);
    if r.Ok? {
      hide Join;
      JoinAssociative(sofar, Judgement(r.value.verdicts, r.value.limitations, None, |requests|, more),
                      JudgeAll(gradable[next..], config, size, responses, attempts + |requests|));
    }
  }

  lemma JudgingEnds(gradable: seq<Claim>, offset: nat, config: Config, size: seq<Claim> -> nat, responses: nat -> Response,
                    verdicts: seq<JudgeVerdict>, limitations: seq<string>, attempts: nat, sleeps: seq<real>, all: Judgement)
    requires Judging(gradable, offset, config, size, responses, verdicts, limitations, attempts, sleeps, all)
    requires offset == |gradable|
    ensures Outcome(all, None, verdicts, limitations, attempts, sleeps)
  {
    assert gradable[offset..] == [];
    assert all == Judgement(verdicts, limitations, None, attempts, sleeps);
  }

  lemma JoinUnit(j: Judgement)
    ensures Join(Judgement([], [], None, 0, []), j) == j
  {
  }

  lemma JoinAssociative(a: Judgement, b: Judgement, c: Judgement)
    requires b.error.None?
    ensures Join(a, Join(b, c)) == Join(Judgement(a.verdicts + b.verdicts, a.limitations + b.limitations, None,
                                                  a.attempts + b.attempts, a.sleeps + b.sleeps), c)
  {
  }

  lemma BatchIs(gradable: seq<Claim>, offset: nat, next: nat, config: Config, size: seq<Claim> -> nat,
                responses: nat -> Response, first: nat,
                r: Result<JudgeOutput, JudgeError>, requests: seq<seq<Message>>, sleeps: seq<real>)
    requires config.Valid() && offset < |gradable|
    requires next == BatchEnd(|gradable|, offset, config.batchSize)
    requires BatchRun(gradable[offset..next], config, size, responses, first, r, requests, sleeps)
    ensures JudgeAll(gradable[offset..], config, size, responses, first)
            == if r.Err? then Judgement([], [], Some(r.error), |requests|, sleeps)
               else Join(Judgement(r.value.verdicts, r.value.limitations, None, |requests|, sleeps),
                         JudgeAll(gradable[next..], config, size, responses, first + |requests|))
  {
    assert config.batchSize > 0;
    hide *;
    BatchSlices(gradable, offset, config.batchSize);
    FirstBatchIs(gradable[offset..], gradable[offset..next], gradable[next..], config, size, responses, first,
                 r, requests, sleeps);
  }

  lemma FirstBatchIs(claims: seq<Claim>, batch: seq<Claim>, rest: seq<Claim>, config: Config, size: seq<Claim> -> nat,
                     responses: nat -> Response, first: nat,
                     r: Result<JudgeOutput, JudgeError>, requests: seq<seq<Message>>, sleeps: seq<real>)
    requires config.Valid() && claims != [] && BatchRun(batch, config, size, responses, first, r, requests, sleeps)
    requires |batch| == if config.batchSize <= |claims| then config.batchSize else |claims|
    requires |batch| <= |claims| && claims[..|batch|] == batch && claims[|batch|..] == rest
    ensures JudgeAll(claims, config, size, responses, first)
            == if r.Err? then Judgement([], [], Some(r.error), |requests|, sleeps)
               else Join(Judgement(r.value.verdicts, r.value.limitations, None, |requests|, sleeps),
                         JudgeAll(rest, config, size, responses, first + |requests|))
  {
    hide *;
    OneIs(batch, config, size, responses, first, r, requests, sleeps);
    JudgeAllStep(claims, |batch|, config, size, responses, first);
  }

  /** The batch and what follows it, seen from the claims left. */
  lemma BatchSlices(gradable: seq<Claim>, offset: nat, size: nat)
    requires offset < |gradable| && size > 0
    ensures var next, rest := BatchEnd(|gradable|, offset, size), gradable[offset..];
            && rest != [] && next - offset == (if size <= |rest| then size else |rest|)
            && rest[..next - offset] == gradable[offset..next] && rest[next - offset..] == gradable[next..]
  {
  }

  lemma JudgeAllStep(claims: seq<Claim>, n: nat, config: Config, size: seq<Claim> -> nat, responses: nat -> Response, first: nat)
    requires config.Valid() && claims != [] && n == if config.batchSize <= |claims| then config.batchSize else |claims|
    ensures var one := JudgeOne(claims[..n], config, size, responses, first);
            JudgeAll(claims, config, size, responses, first)
            == if one.error.Some? then one
               else Join(one, JudgeAll(claims[n..], config, size, responses, first + one.attempts))
  {
  }

  lemma OneIs(batch: seq<Claim>, config: Config, size: seq<Claim> -> nat, responses: nat -> Response, first: nat,
              r: Result<JudgeOutput, JudgeError>, requests: seq<seq<Message>>, sleeps: seq<real>)
    requires BatchRun(batch, config, size, responses, first, r, requests, sleeps)
    ensures JudgeOne(batch, config, size, responses, first)
            == if r.Err? then Judgement([], [], Some(r.error), |requests|, sleeps)
               else Judgement(r.value.verdicts, r.value.limitations, None, |requests|, sleeps)
  {
    hide Settle, Conclude, TryAgain, Backoffs;
    if size(batch) <= config.maxInputChars {
      BatchSettles(batch, config, size, responses, first, r, requests, sleeps, 0);
    }
  }

  /** A judgement without error covers the claims, and every judgement keeps within the bounds. */
  lemma {:induction false} JudgementSound(claims: seq<Claim>, config: Config, size: seq<Claim> -> nat,
                                          responses: nat -> Response, first: nat)
    requires config.Valid() && AllDistinct(ClaimIds(claims))
    ensures var j := JudgeAll(claims, config, size, responses, first);
            && (j.error.None? ==> Covers(claims, j.verdicts))
            && WithinBounds(config, BatchesFor(|claims|, config.batchSize), j.attempts, j.sleeps)
            && (j.error.None? ==> j.attempts >= BatchesFor(|claims|, config.batchSize))
    decreases |claims|
  {
    hide JudgeOne, Covers, WithinBounds, AllDistinct;
    NothingJudged(config, 0);
    if claims != [] {
      var n := if config.batchSize <= |claims| then config.batchSize else |claims|;
      var front, back := claims[..n], claims[n..];
      var one := JudgeOne(front, config, size, responses, first);
      var runs := BatchesFor(|back|, config.batchSize);
      OneSound(front, config, size, responses, first);
      ApartIds(claims, n, |claims|);
      assert claims[n..|claims|] == back && front + back == claims;
      TailDistinct(claims, n);
      if one.error.Some? {
        NothingJudged(config, runs);
        BoundsJoin(config, runs, 0, [], one.attempts, one.sleeps);
        assert one.sleeps + [] == one.sleeps;
      } else {
        var rest := JudgeAll(back, config, size, responses, first + one.attempts);
        JudgementSound(back, config, size, responses, first + one.attempts);
        BoundsJoin(config, runs, rest.attempts, rest.sleeps, one.attempts, one.sleeps);
        if rest.error.None? {
          CoversAppend(front, back, one.verdicts, rest.verdicts);
        }
      }
    }
  }

  lemma NothingJudged(config: Config, runs: nat)
    requires config.Valid()
    ensures WithinBounds(config, runs, 0, []) && Covers([], [])
  {
    Power2Monotone(0, config.maxAttempts - 1);
    var m := MaxSleep(config.maxAttempts);
    assert m >= 0.0 && runs as real * m >= 0.0;
  }

  lemma TailDistinct(claims: seq<Claim>, n: nat)
    requires AllDistinct(ClaimIds(claims)) && n <= |claims|
    ensures AllDistinct(ClaimIds(claims[n..]))
  {
    assert ClaimIds(claims[n..]) == ClaimIds(claims)[n..];
  }

  lemma {:induction false} SettleBounds(batch: seq<Claim>, config: Config, responses: nat -> Response, first: nat, n: nat)
    requires n < config.maxAttempts
    ensures var (r, used) := Settle(batch, config, responses, first, n);
            n < used <= config.maxAttempts && r == Conclude(batch, responses(first + used - 1))
    decreases config.maxAttempts - n
  {
    hide TryAgain, Conclude;
    if n + 1 < config.maxAttempts && Retried(batch, responses, first, n) {
      SettleBounds(batch, config, responses, first, n + 1);
    }
  }

  lemma OneSound(batch: seq<Claim>, config: Config, size: seq<Claim> -> nat, responses: nat -> Response, first: nat)
    requires config.Valid()
    ensures var one := JudgeOne(batch, config, size, responses, first);
            && (one.error.None? ==> Covers(batch, one.verdicts) && one.attempts > 0)
            && one.attempts <= config.maxAttempts && SumReal(one.sleeps) <= MaxSleep(config.maxAttempts)
  {
    hide Settle, Conclude, Faithful, Covers;
    SettleBounds(batch, config, responses, first, 0);
    var (r, used) := Settle(batch, config, responses, first, 0);
    SumBackoffs(used - 1);
    Power2Monotone(0, used - 1);
    Power2Monotone(used - 1, config.maxAttempts - 1);
    if r.Ok? {
      AcceptedIsFaithful(batch, responses(first + used - 1));
      FaithfulCovers(batch, r.value.verdicts);
    }
  }

  /** Whatever the provider answers, a normal return has every gradable claim exactly once, each citing only its
      own resolved evidence, after at least one request for each of the `ceil(n / batch)` batches; any return keeps
      within `ceil(n / batch) * max_attempts` requests and the matching sleep. */
  lemma JudgeExactlyOnce(claims: seq<Claim>, config: Config, size: seq<Claim> -> nat, responses: nat -> Response)
    requires config.Valid() && AllDistinct(ClaimIds(claims))
    ensures var j := JudgeAll(Gradable(claims), config, size, responses, 0);
            && (j.error.None? ==> Covers(Gradable(claims), j.verdicts))
            && WithinBounds(config, BatchesFor(|Gradable(claims)|, config.batchSize), j.attempts, j.sleeps)
            && (j.error.None? ==> j.attempts >= BatchesFor(|Gradable(claims)|, config.batchSize))
  {
    GradableDistinct(claims);
    JudgementSound(Gradable(claims), config, size, responses, 0);
  }

  lemma {:induction false} GradableDistinct(claims: seq<Claim>)
    requires AllDistinct(ClaimIds(claims))
    ensures AllDistinct(ClaimIds(Gradable(claims)))
  {
    if claims != [] {
      assert ClaimIds(claims)[1..] == ClaimIds(claims[1..]);
      GradableDistinct(claims[1..]);
      var first, rest := claims[0], Gradable(claims[1..]);
      forall i | 0 <= i < |rest| ensures rest[i].claimId != first.claimId {
        assert rest[i] in claims[1..];
        var j :| 0 <= j < |claims[1..]| && claims[1..][j] == rest[i];
        assert ClaimIds(claims)[j + 1] == rest[i].claimId && ClaimIds(claims)[0] == first.claimId;
      }
      assert Gradable(claims) == (if IsGradable(first) then [first] else []) + rest;
      hide Filter;
      OneInFront(first, rest);
    }
  }

  lemma OneInFront(first: Claim, rest: seq<Claim>)
    requires AllDistinct(ClaimIds(rest)) && forall i | 0 <= i < |rest| :: rest[i].claimId != first.claimId
    ensures AllDistinct(ClaimIds([first] + rest)) && AllDistinct(ClaimIds([] + rest))
  {
    assert ClaimIds([first] + rest) == [first.claimId] + ClaimIds(rest);
    assert [] + rest == rest;
  }

  // ----- Merging the verdicts -----

  /** `{item.claim_id: item for item in verdicts}`, looked up: the last verdict of an id. */
  function VerdictFor(verdicts: seq<JudgeVerdict>, claimId: string): Option<ClaimVerdict> {
    if verdicts == [] then None
    else if verdicts[|verdicts| - 1].claimId == claimId then Some(verdicts[|verdicts| - 1].verdict)
    else VerdictFor(verdicts[..|verdicts| - 1], claimId)
  }

  function MergeOne(c: Claim, verdicts: seq<JudgeVerdict>): Claim {
    match VerdictFor(verdicts, c.claimId)
    case None => c
    case Some(v) => c.(judged := Some(v), final_ := v)
  }

  function Merge(claims: seq<Claim>, verdicts: seq<JudgeVerdict>): (merged: seq<Claim>)
    ensures |merged| == |claims|
  {
    seq(|claims|, i requires 0 <= i < |claims| => MergeOne(claims[i], verdicts))
  }

  predicate IsJudged(c: Claim) {
    c.judged.Some?
  }

  /** Claims as the deterministic pass leaves them. */
  ghost predicate Unjudged(claims: seq<Claim>) {
    forall c | c in claims :: c.judged == None && c.final_ == c.deterministic
  }

  lemma {:induction false} VerdictForSome(verdicts: seq<JudgeVerdict>, claimId: string)
    ensures VerdictFor(verdicts, claimId).Some? <==> claimId in VerdictIds(verdicts)
  {
    if verdicts != [] {
      VerdictForSome(verdicts[..|verdicts| - 1], claimId);
      assert VerdictIds(verdicts) == VerdictIds(verdicts[..|verdicts| - 1]) + [verdicts[|verdicts| - 1].claimId];
    }
  }

  lemma {:induction false} VerdictForOwn(verdicts: seq<JudgeVerdict>, x: nat)
    requires AllDistinct(VerdictIds(verdicts)) && x < |verdicts|
    ensures VerdictFor(verdicts, verdicts[x].claimId) == Some(verdicts[x].verdict)
  {
    var front, ids := verdicts[..|verdicts| - 1], VerdictIds(verdicts);
    if x < |front| {
      assert ids[x] != ids[|front|];
      assert VerdictIds(front) == ids[..|front|];
      VerdictForOwn(front, x);
    }
  }

  /** After the merge exactly the gradable claims are judged, each with its own verdict; the others keep
      their deterministic one. */
  lemma MergeJudgesGradable(claims: seq<Claim>, verdicts: seq<JudgeVerdict>, i: nat)
    requires AllDistinct(ClaimIds(claims)) && Unjudged(claims) && Covers(Gradable(claims), verdicts) && i < |claims|
    ensures var m := Merge(claims, verdicts)[i];
            if claims[i].resolved != [] then
              exists v | v in verdicts :: v.claimId == m.claimId && m.judged == Some(v.verdict) && m.final_ == v.verdict
            else m == claims[i] && m.judged == None && m.final_ == m.deterministic
  {
    assert IsGradable(claims[i]) <==> claims[i].resolved != [];
    hide IdSet, AllDistinct, ClaimIds, Gradable, IsGradable, VerdictFor, OwnCitations;
    var c := claims[i];
    GradableIds(claims, i);
    VerdictForSome(verdicts, c.claimId);
    SameIds(VerdictIds(verdicts), ClaimIds(Gradable(claims)));
    assert c in claims;
    if IsGradable(c) {
      var x :| 0 <= x < |VerdictIds(verdicts)| && VerdictIds(verdicts)[x] == c.claimId;
      assert verdicts[x] in verdicts && verdicts[x].claimId == c.claimId;
      VerdictForOwn(verdicts, x);
    }
  }

  /** So a claim some of whose citations do not resolve is released as supported when the judge says so. */
  lemma UnresolvedCitationOverruled(id: string, evidenceId: string, verdicts: seq<JudgeVerdict>)
    requires verdicts == [JudgeVerdict(id, Supported, [evidenceId])]
    ensures var c := Claim(id, [evidenceId], UnresolvedCitation, None, UnresolvedCitation);
            Covers(Gradable([c]), verdicts) && Merge([c], verdicts)[0].final_ == Supported
  {
    var c := Claim(id, [evidenceId], UnresolvedCitation, None, UnresolvedCitation);
    assert [c][1..] == [] && Gradable([c]) == [c];
    assert ClaimIds([c]) == [id] && VerdictIds(verdicts) == [id];
    assert c in [c] && OwnCitations([c], verdicts[0]);
    assert verdicts[..0] == [];
  }

  lemma GradableIds(claims: seq<Claim>, i: nat)
    requires AllDistinct(ClaimIds(claims)) && i < |claims|
    ensures claims[i].claimId in ClaimIds(Gradable(claims)) <==> IsGradable(claims[i])
  {
    var gradable := Gradable(claims);
    if IsGradable(claims[i]) {
      assert claims[i] in gradable;
      var x :| 0 <= x < |gradable| && gradable[x] == claims[i];
      assert ClaimIds(gradable)[x] == claims[i].claimId;
    }
    if claims[i].claimId in ClaimIds(gradable) {
      var x :| 0 <= x < |gradable| && ClaimIds(gradable)[x] == claims[i].claimId;
      assert gradable[x] in claims;
      var y :| 0 <= y < |claims| && claims[y] == gradable[x];
      assert ClaimIds(claims)[y] == ClaimIds(claims)[i];
    }
  }

  lemma {:induction false} SameCount(a: seq<Claim>, b: seq<Claim>)
    requires |a| == |b| && forall i | 0 <= i < |a| :: IsJudged(a[i]) == IsGradable(b[i])
    ensures Count(a, IsJudged) == Count(b, IsGradable)
  {
    if a != [] {
      assert forall i | 0 <= i < |a[1..]| :: a[1..][i] == a[i + 1] && b[1..][i] == b[i + 1];
      SameCount(a[1..], b[1..]);
    }
  }

  /** The judged count is the gradable count. */
  lemma JudgedCount(claims: seq<Claim>, verdicts: seq<JudgeVerdict>)
    requires AllDistinct(ClaimIds(claims)) && Unjudged(claims) && Covers(Gradable(claims), verdicts)
    ensures Count(Merge(claims, verdicts), IsJudged) == |Gradable(claims)|
  {
    hide AllDistinct, Unjudged, Covers, Merge;
    var merged := Merge(claims, verdicts);
    forall i: nat | i < |claims| ensures IsJudged(merged[i]) == IsGradable(claims[i]) {
      MergeJudgesGradable(claims, verdicts, i);
    }
    SameCount(merged, claims);
  }
}
