/**
  The interactive loop. Each round reads a city line and a country-code
  line, sends one request, shows the report or the error, and asks whether
  to go on; only an answer that trims and lower-cases to "yes" goes on.
  Console input and the network are inputs to the model: a round carries
  the lines the user typed and the reply the request received.
 */
module Session {
  import opened Results
  import opened Text
  import opened Request
  import opened Report

  /** Why a request produced no response: the transport failed or the body
      did not decode. */
  datatype FetchError = TransportError | DecodeError

  /** What one round of the loop consumes. */
  datatype Round = Round(
    cityLine: string,
    countryLine: string,
    reply: Result<WeatherResponse, FetchError>,
    answerLine: string)

  /** Why the program aborts. */
  datatype Abort = MissingApiKey | NoCondition

  /** What the loop does, in order. */
  datatype Event =
    | Requested(query: Query)
    | Shown(display: Display)
    | Reported(error: FetchError)
    | Aborted(reason: Abort)
    | Farewell

  /** Events after which nothing else happens. */
  predicate Terminal(e: Event) {
    e.Aborted? || e.Farewell?
  }

  /** The continuation test on the answer line. */
  predicate Continues(answer: string) {
    Lower(Trim(answer)) == "yes"
  }

  /** `line` is "yes", in any mix of cases, at position i, with only
      whitespace around it. */
  predicate PaddedYes(line: string, i: int) {
    && 0 <= i && i + 3 <= |line|
    && AllSpace(line[..i]) && AllSpace(line[i + 3..])
    && Lower(line[i..i + 3]) == "yes"
  }

  /** The continuation test accepts exactly the answers that are "yes" in
      any case, padded with whitespace. */
  lemma {:induction false} ContinuesIff(line: string)
    ensures Continues(line) <==> exists i :: PaddedYes(line, i)
  {
    if Continues(line) {
      var m := Trim(line);
      var pre, post := PaddedTrim(line);
      assert line == pre + m + post;
      assert line[..|pre|] == pre;
      assert line[|pre|..|pre| + 3] == m;
      assert line[|pre| + 3..] == post;
      assert PaddedYes(line, |pre|);
    }
    if i :| PaddedYes(line, i) {
      var pre, m, post := line[..i], line[i..i + 3], line[i + 3..];
      assert LowerChar(m[0]) == 'y' && LowerChar(m[2]) == 's';
      assert line == pre + m + post;
      TrimPadded(line, pre, m, post);
    }
  }

  lemma AcceptedAnswers()
    ensures Continues(" YES\n")
    ensures Continues("Yes")
  {
    assert PaddedYes(" YES\n", 1);
    ContinuesIff(" YES\n");
    assert PaddedYes("Yes", 0);
    ContinuesIff("Yes");
  }

  lemma DeclinedAnswers()
    ensures !Continues("y")
    ensures !Continues("no")
  {
    TrimPadded("y", "", "y", "");
    TrimPadded("no", "", "no", "");
  }

  /** The query a round sends: its two lines trimmed, and the key. The
      request goes to RequestUrl of these three values. */
  function QueryOf(r: Round, apiKey: string): Query {
    Query(Trim(r.cityLine), Trim(r.countryLine), apiKey)
  }

  /** The events a round's outcome can be. */
  predicate IsOutcome(e: Event) {
    e.Shown? || e.Reported? || e.Aborted?
  }

  /** What a round shows after its request: the report, the error, or an
      abort when the response has no condition. */
  function Outcome(r: Round): (e: Event)
    ensures e.Aborted? <==> r.reply.Success? && |r.reply.value.weather| == 0
    ensures e.Aborted? ==> e.reason == NoCondition
    ensures IsOutcome(e)
    ensures e.Reported? <==> r.reply.Failure?
    ensures r.reply.Failure? ==> e == Reported(r.reply.error)
    ensures e.Shown? ==> r.reply.Success? && Render(r.reply.value) == Success(e.display)
  {
    match r.reply
    case Failure(err) => Reported(err)
    case Success(resp) =>
      match Render(resp)
      case Failure(_) => Aborted(NoCondition)
      case Success(d) => Shown(d)
  }

  /** One round once its lines are read: the query it sends, what it shows,
      and whether its answer asks to go on. */
  datatype Step = Step(query: Query, outcome: Event, goesOn: bool)

  function StepOf(r: Round, apiKey: string): Step {
    Step(QueryOf(r, apiKey), Outcome(r), Continues(r.answerLine))
  }

  /** The step ends the loop, by an abort or by a declined answer. */
  predicate Halts(s: Step) {
    s.outcome.Aborted? || !s.goesOn
  }

  /** The loop body, repeated: send the query, show the outcome, then stop
      on an abort, go on after "yes", or say farewell and stop. */
  function Loop(steps: seq<Step>): (events: seq<Event>)
    requires forall i :: 0 <= i < |steps| ==> IsOutcome(steps[i].outcome)
    ensures forall i :: 0 <= i < |events| - 1 ==> !Terminal(events[i])
    ensures |steps| > 0 <==> |events| > 0
    decreases |steps|
  {
    if |steps| == 0 then []
    else
      var s := steps[0];
      assert IsOutcome(s.outcome);
      var rest :=
        if s.outcome.Aborted? then []
        else if s.goesOn then Loop(steps[1..])
        else [Farewell];
      [Requested(s.query), s.outcome] + rest
  }

  /** The steps of a sequence of rounds under one API key. */
  function Steps(rounds: seq<Round>, apiKey: string): (steps: seq<Step>)
    ensures |steps| == |rounds|
    ensures forall i :: 0 <= i < |rounds| ==> steps[i] == StepOf(rounds[i], apiKey)
  {
    seq(|rounds|, i requires 0 <= i < |rounds| => StepOf(rounds[i], apiKey))
  }

  /** The events of a session over the rounds the user supplies. The API key
      is looked up in every round, before the request, and its absence
      aborts; since it cannot change between rounds, only the first round
      can abort for it. The transcript ends when the supplied rounds do. */
  function Run(rounds: seq<Round>, apiKey: Option<string>): (events: seq<Event>)
    ensures forall i :: 0 <= i < |events| - 1 ==> !Terminal(events[i])
    ensures |rounds| > 0 <==> |events| > 0
  {
    if |rounds| == 0 then []
    else if apiKey.None? then [Aborted(MissingApiKey)]
    else Loop(Steps(rounds, apiKey.value))
  }

  /** The queries sent, in order. */
  function Requests(events: seq<Event>): seq<Query> {
    if |events| == 0 then []
    else if events[0].Requested? then [events[0].query] + Requests(events[1..])
    else Requests(events[1..])
  }

  lemma {:induction false} RequestsConcat(a: seq<Event>, b: seq<Event>)
    ensures Requests(a + b) == Requests(a) + Requests(b)
    decreases |a|
  {
    if |a| == 0 {
      assert a + b == b;
    } else {
      assert (a + b)[1..] == a[1..] + b;
      RequestsConcat(a[1..], b);
    }
  }

  /** A step sends its query, and the loop goes on only if the step does
      not halt it. */
  lemma {:induction false} LoopRequestsStep(steps: seq<Step>)
    requires |steps| > 0
    requires forall i :: 0 <= i < |steps| ==> IsOutcome(steps[i].outcome)
    ensures Requests(Loop(steps))
         == [steps[0].query] + (if Halts(steps[0]) then [] else Requests(Loop(steps[1..])))
  {
    var s := steps[0];
    var head := [Requested(s.query), s.outcome];
    assert Requests([s.outcome]) == [];
    assert Requests(head) == [s.query];
    var tail := if s.outcome.Aborted? then [] else if s.goesOn then Loop(steps[1..]) else [Farewell];
    assert Loop(steps) == head + tail;
    RequestsConcat(head, tail);
  }

  /** The loop sends one query per step, up to and including the first step
      that halts it. */
  lemma {:induction false} LoopRequests(steps: seq<Step>, k: nat)
    requires forall i :: 0 <= i < |steps| ==> IsOutcome(steps[i].outcome)
    requires k <= |steps|
    requires forall i :: 0 <= i < k ==> !Halts(steps[i])
    requires k == |steps| || Halts(steps[k])
    ensures var sent := Requests(Loop(steps));
      && |sent| == (if k == |steps| then k else k + 1)
      && forall i :: 0 <= i < |sent| ==> sent[i] == steps[i].query
    decreases |steps|
  {
    if |steps| > 0 {
      LoopRequestsStep(steps);
      if k > 0 {
        var rest := steps[1..];
        assert forall i :: 0 <= i < k - 1 ==> rest[i] == steps[i + 1];
        LoopRequests(rest, k - 1);
        var later := Requests(Loop(rest));
        var sent := Requests(Loop(steps));
        forall i | 1 <= i < |sent|
          ensures sent[i] == steps[i].query
        {
          assert sent[i] == later[i - 1];
          assert rest[i - 1] == steps[i];
        }
      }
    }
  }

  /** The reference transcript of steps that all run: each step's request
      followed by its outcome. */
  function Shows(steps: seq<Step>): (events: seq<Event>)
    ensures |events| == 2 * |steps|
    ensures forall i :: 0 <= i < |steps| ==>
      events[2 * i] == Requested(steps[i].query) && events[2 * i + 1] == steps[i].outcome
  {
    if |steps| == 0 then []
    else
      var rest := Shows(steps[1..]);
      var events := [Requested(steps[0].query), steps[0].outcome] + rest;
      assert forall i :: 1 <= i < |steps| ==> steps[i] == steps[1..][i - 1];
      assert forall j :: 2 <= j < |events| ==> events[j] == rest[j - 2];
      events
  }

  /** The loop is the reference transcript of its steps up to and including
      the first that halts, followed by the farewell exactly when that step
      declines rather than aborts. */
  lemma {:induction false} LoopShape(steps: seq<Step>, k: nat)
    requires forall i :: 0 <= i < |steps| ==> IsOutcome(steps[i].outcome)
    requires k <= |steps|
    requires forall i :: 0 <= i < k ==> !Halts(steps[i])
    requires k == |steps| || Halts(steps[k])
    ensures var n := if k == |steps| then k else k + 1;
      Loop(steps)
      == Shows(steps[..n]) + (if k < |steps| && !steps[k].outcome.Aborted? then [Farewell] else [])
    decreases |steps|
  {
    var n := if k == |steps| then k else k + 1;
    if |steps| > 0 {
      var s := steps[0];
      var head := [Requested(s.query), s.outcome];
      assert IsOutcome(s.outcome);
      if k == 0 {
        assert steps[..1] == [s];
        assert Shows(steps[..1]) == head + Shows([]);
      } else {
        var rest := steps[1..];
        assert forall i :: 0 <= i < k - 1 ==> rest[i] == steps[i + 1];
        LoopShape(rest, k - 1);
        assert Loop(steps) == head + Loop(rest);
        assert steps[..n][1..] == rest[..n - 1];
        assert Shows(steps[..n]) == head + Shows(rest[..n - 1]);
      }
    }
  }

  /** The first k steps go on, and step k shows its outcome without
      aborting and then declines. */
  predicate DeclinesAtStep(steps: seq<Step>, k: int) {
    && 0 <= k < |steps|
    && (forall i :: 0 <= i < k ==> !Halts(steps[i]))
    && !steps[k].outcome.Aborted? && !steps[k].goesOn
  }

  /** The loop says farewell exactly when some step declines before any
      step aborts. */
  lemma {:induction false} LoopFarewell(steps: seq<Step>)
    requires forall i :: 0 <= i < |steps| ==> IsOutcome(steps[i].outcome)
    ensures Farewell in Loop(steps) <==> exists k :: DeclinesAtStep(steps, k)
    decreases |steps|
  {
    if |steps| > 0 {
      var s := steps[0];
      var rest := steps[1..];
      LoopFarewell(rest);
      var head := [Requested(s.query), s.outcome];
      assert Farewell !in head;
      if !s.outcome.Aborted? && s.goesOn {
        assert Loop(steps) == head + Loop(rest);
        if k :| DeclinesAtStep(rest, k) {
          assert DeclinesAtStep(steps, k + 1) by {
            forall i | 0 <= i < k + 1
              ensures !Halts(steps[i])
            {
              if i > 0 {
                assert steps[i] == rest[i - 1];
              }
            }
          }
        }
        if k :| DeclinesAtStep(steps, k) {
          assert k > 0;
          assert DeclinesAtStep(rest, k - 1) by {
            forall i | 0 <= i < k - 1
              ensures !Halts(rest[i])
            {
              assert rest[i] == steps[i + 1];
            }
          }
        }
      } else if !s.outcome.Aborted? {
        assert DeclinesAtStep(steps, 0);
      } else {
        assert Loop(steps) == head;
        assert forall k :: !DeclinesAtStep(steps, k);
      }
    }
  }

  /** The round ends the session: its response has no condition, so the
      program aborts, or its answer declines. */
  predicate Stops(r: Round) {
    (r.reply.Success? && |r.reply.value.weather| == 0) || !Continues(r.answerLine)
  }

  lemma HaltsIffStops(r: Round, apiKey: string)
    ensures Halts(StepOf(r, apiKey)) <==> Stops(r)
  {
  }

  /** With an API key, one request per round, up to and including the first
      round that stops the session; the i-th request is for the i-th round's
      trimmed city and country code. */
  lemma {:induction false} RequestsOfRun(rounds: seq<Round>, apiKey: string, k: nat)
    requires k <= |rounds|
    requires forall i :: 0 <= i < k ==> !Stops(rounds[i])
    requires k == |rounds| || Stops(rounds[k])
    ensures var sent := Requests(Run(rounds, Some(apiKey)));
      && |sent| == (if k == |rounds| then k else k + 1)
      && forall i :: 0 <= i < |sent| ==> sent[i] == QueryOf(rounds[i], apiKey)
  {
    if |rounds| > 0 {
      var steps := Steps(rounds, apiKey);
      forall i | 0 <= i < |rounds|
        ensures Halts(steps[i]) <==> Stops(rounds[i])
      {
        HaltsIffStops(rounds[i], apiKey);
      }
      LoopRequests(steps, k);
    }
  }

  /** With an API key, the session shows, for every round up to and
      including the first that stops it, that round's request and then its
      outcome; after them comes the farewell exactly when that last round
      declines rather than aborts, and nothing else. */
  lemma {:induction false} RunShape(rounds: seq<Round>, apiKey: string, k: nat)
    requires k <= |rounds|
    requires forall i :: 0 <= i < k ==> !Stops(rounds[i])
    requires k == |rounds| || Stops(rounds[k])
    ensures var events := Run(rounds, Some(apiKey));
      var n := if k == |rounds| then k else k + 1;
      var farewell := k < |rounds| && !Outcome(rounds[k]).Aborted?;
      && |events| == 2 * n + (if farewell then 1 else 0)
      && (forall i :: 0 <= i < n ==>
            events[2 * i] == Requested(QueryOf(rounds[i], apiKey)) && events[2 * i + 1] == Outcome(rounds[i]))
      && (farewell ==> events[2 * n] == Farewell)
  {
    if |rounds| > 0 {
      var steps := Steps(rounds, apiKey);
      forall i | 0 <= i < |rounds|
        ensures Halts(steps[i]) <==> Stops(rounds[i])
      {
        HaltsIffStops(rounds[i], apiKey);
      }
      LoopShape(steps, k);
      var n := if k == |rounds| then k else k + 1;
      var events := Run(rounds, Some(apiKey));
      var shown := Shows(steps[..n]);
      var farewell := k < |rounds| && !Outcome(rounds[k]).Aborted?;
      assert farewell <==> k < |steps| && !steps[k].outcome.Aborted?;
      assert events == shown + (if farewell then [Farewell] else []);
      forall i | 0 <= i < n
        ensures events[2 * i] == Requested(QueryOf(rounds[i], apiKey))
        ensures events[2 * i + 1] == Outcome(rounds[i])
      {
        assert steps[..n][i] == StepOf(rounds[i], apiKey);
        assert events[2 * i] == shown[2 * i];
        assert events[2 * i + 1] == shown[2 * i + 1];
      }
    }
  }

  /** Without an API key no request is ever sent. */
  lemma NoKeyNoRequest(rounds: seq<Round>)
    ensures Requests(Run(rounds, None)) == []
  {
  }

  /** The first k rounds go on, and round k shows a report or an error and
      then declines. */
  predicate DeclinesAt(rounds: seq<Round>, k: int) {
    && 0 <= k < |rounds|
    && (forall i :: 0 <= i < k ==> !Stops(rounds[i]))
    && !(rounds[k].reply.Success? && |rounds[k].reply.value.weather| == 0)
    && !Continues(rounds[k].answerLine)
  }

  /** The farewell is printed exactly when, with an API key present, some
      round declines before any round aborts; and it is the last event, so
      it is printed at most once. */
  lemma {:induction false} FarewellIff(rounds: seq<Round>, apiKey: Option<string>)
    ensures var events := Run(rounds, apiKey);
      && (Farewell in events <==> apiKey.Some? && exists k :: DeclinesAt(rounds, k))
      && forall i :: 0 <= i < |events| && events[i] == Farewell ==> i == |events| - 1
  {
    if |rounds| > 0 && apiKey.Some? {
      var steps := Steps(rounds, apiKey.value);
      LoopFarewell(steps);
      forall k | 0 <= k < |rounds|
        ensures DeclinesAtStep(steps, k) <==> DeclinesAt(rounds, k)
      {
        forall i | 0 <= i < |rounds|
          ensures Halts(steps[i]) <==> Stops(rounds[i])
        {
          HaltsIffStops(rounds[i], apiKey.value);
        }
      }
    }
  }

  /** A missing API key aborts the first round before its request. */
  lemma MissingKeyAbortsFirst(rounds: seq<Round>)
    requires |rounds| > 0
    ensures Run(rounds, None) == [Aborted(MissingApiKey)]
  {
  }
}
