/** The ordered message log of one agent run, and the steering counters derived from it. */
module Messages {
  import opened Wrappers

  datatype Kind = Steer | Progress | Ack | Error | TaskComplete
  datatype Direction = ParentToChild | ChildToParent

  datatype Message = Message(
    sequence: int, id: string, run: string, timestamp: string, direction: Direction,
    kind: Kind, actor: string, content: string, correlation: Option<string>)

  const MAX_CONTENT_CHARS := 16_384

  function KindDirection(k: Kind): Direction { if k.Steer? then ParentToChild else ChildToParent }

  /** `validate_message` at a known position. */
  predicate ValidMessage(m: Message, expected: int) {
    && m.sequence >= 1 && m.sequence == expected
    && m.timestamp != ""
    && m.direction == KindDirection(m.kind)
    && 0 < |m.content| <= MAX_CONTENT_CHARS
    && (m.kind.Ack? ==> m.correlation.Some?)
    && (m.correlation.Some? ==> m.kind.Ack? || m.kind.Error?)
  }

  predicate AnswersSteer(prior: seq<Message>, id: string) {
    exists i :: 0 <= i < |prior| && prior[i].id == id && prior[i].kind.Steer?
  }

  predicate Answered(prior: seq<Message>, id: string) {
    exists i :: 0 <= i < |prior| && prior[i].kind.Ack? && prior[i].correlation == Some(id)
  }

  /** What one message may not do, given the messages before it. */
  predicate Extends(prior: seq<Message>, m: Message) {
    && (prior != [] ==> m.run == prior[0].run)
    && (forall i :: 0 <= i < |prior| ==> prior[i].id != m.id)
    && (m.kind.Ack? && m.correlation.Some? ==>
        AnswersSteer(prior, m.correlation.value) && !Answered(prior, m.correlation.value))
  }

  predicate ValidLog(log: seq<Message>) {
    forall i :: 0 <= i < |log| ==> ValidMessage(log[i], i + 1) && Extends(log[..i], log[i])
  }

  /** The first message with this identifier, as the lookup of an acknowledged request finds it. */
  function FirstWith(prior: seq<Message>, id: string): Option<Message> {
    if prior == [] then None else if prior[0].id == id then Some(prior[0]) else FirstWith(prior[1..], id)
  }

  predicate DistinctIds(log: seq<Message>) { forall i, j :: 0 <= i < j < |log| ==> log[i].id != log[j].id }

  lemma {:induction false} FirstWithIsFirst(prior: seq<Message>, id: string, i: nat)
    requires i < |prior| && prior[i].id == id && forall k :: 0 <= k < i ==> prior[k].id != id
    ensures FirstWith(prior, id) == Some(prior[i])
  {
    if i > 0 { FirstWithIsFirst(prior[1..], id, i - 1); }
  }

  lemma {:induction false} FirstWithFinds(prior: seq<Message>, id: string)
    ensures FirstWith(prior, id).Some? ==> FirstWith(prior, id).value in prior && FirstWith(prior, id).value.id == id
    ensures FirstWith(prior, id).None? ==> forall i :: 0 <= i < |prior| ==> prior[i].id != id
  {
    if prior != [] && prior[0].id != id {
      FirstWithFinds(prior[1..], id);
      assert forall i :: 1 <= i < |prior| ==> prior[i] == prior[1..][i - 1];
    }
  }

  /** Because identifiers are unique, looking at the first match alone decides whether any match is a request. */
  lemma {:induction false} FirstMatchDecides(prior: seq<Message>, id: string)
    requires DistinctIds(prior)
    ensures AnswersSteer(prior, id) <==> FirstWith(prior, id).Some? && FirstWith(prior, id).value.kind.Steer?
  {
    FirstWithFinds(prior, id);
    if AnswersSteer(prior, id) {
      var i :| 0 <= i < |prior| && prior[i].id == id && prior[i].kind.Steer?;
      FirstWithIsFirst(prior, id, i);
    }
  }

  /** Where an identifier is used twice, the first match may hide the request that a later one is. */
  lemma FirstMatchCanHide()
    ensures var note := Message(1, "m", "r", "t", ChildToParent, Progress, "w", "x", None);
      var steer := note.(kind := Steer, direction := ParentToChild);
      AnswersSteer([note, steer], "m") && FirstWith([note, steer], "m") == Some(note)
  {
    var note := Message(1, "m", "r", "t", ChildToParent, Progress, "w", "x", None);
    var steer := note.(kind := Steer, direction := ParentToChild);
    assert [note, steer][1].kind.Steer?;
  }

  /** The scan of the earlier messages that both the replay check and the append check make. */
  method MayFollow(prior: seq<Message>, m: Message) returns (ok: bool)
    requires DistinctIds(prior)
    ensures ok <==> Extends(prior, m)
  {
    if prior != [] && m.run != prior[0].run { return false; }
    for i := 0 to |prior|
      invariant forall k :: 0 <= k < i ==> prior[k].id != m.id
    {
      if prior[i].id == m.id { return false; }
    }
    if m.kind.Ack? && m.correlation.Some? {
      var steer := FindFirst(prior, m.correlation.value);
      FirstMatchDecides(prior, m.correlation.value);
      if steer.None? || !steer.value.kind.Steer? { return false; }
      for i := 0 to |prior|
        invariant forall k :: 0 <= k < i ==> !(prior[k].kind.Ack? && prior[k].correlation == m.correlation)
      {
        if prior[i].kind.Ack? && prior[i].correlation == m.correlation { return false; }
      }
    }
    ok := true;
  }

  method FindFirst(prior: seq<Message>, id: string) returns (r: Option<Message>)
    ensures r == FirstWith(prior, id)
  {
    for i := 0 to |prior|
      invariant forall k :: 0 <= k < i ==> prior[k].id != id
    {
      if prior[i].id == id {
        FirstWithIsFirst(prior, id, i);
        return Some(prior[i]);
      }
    }
    FirstWithFinds(prior, id);
    r := None;
  }

  method ValidateMessageLog(log: seq<Message>) returns (ok: bool)
    requires forall i :: 0 <= i < |log| ==> ValidMessage(log[i], i + 1)
    ensures ok <==> ValidLog(log)
  {
    for i := 0 to |log|
      invariant forall k :: 0 <= k < i ==> Extends(log[..k], log[k])
      invariant DistinctIds(log[..i])
    {
      var fits := MayFollow(log[..i], log[i]);
      if !fits { return false; }
      assert forall k :: 0 <= k < i ==> log[..i][k] == log[k];
    }
    ok := true;
  }

  lemma ValidLogIsDistinct(log: seq<Message>)
    requires ValidLog(log)
    ensures DistinctIds(log)
  {
    forall i, j | 0 <= i < j < |log| ensures log[i].id != log[j].id {
      assert Extends(log[..j], log[j]) && log[..j][i] == log[i];
    }
  }

  /** The check made before an append and the check made when the whole log is read agree. */
  lemma AppendAgreesWithReplay(log: seq<Message>, m: Message)
    requires ValidLog(log)
    ensures ValidMessage(m, |log| + 1) && Extends(log, m) <==> ValidLog(log + [m])
  {
    var grown := log + [m];
    assert grown[..|log|] == log && grown[|log|] == m;
    if ValidMessage(m, |log| + 1) && Extends(log, m) {
      forall i | 0 <= i < |grown| ensures ValidMessage(grown[i], i + 1) && Extends(grown[..i], grown[i]) {
        if i < |log| { assert grown[i] == log[i] && grown[..i] == log[..i]; }
      }
    }
  }

  /** The direction and the correlation that each kind of message has. */
  ghost predicate Shaped(m: Message) {
    match m.kind
    case Steer => m.direction == ParentToChild && m.correlation == None
    case Progress => m.direction == ChildToParent && m.correlation == None
    case TaskComplete => m.direction == ChildToParent && m.correlation == None
    case Ack => m.direction == ChildToParent && m.correlation != None
    case Error => m.direction == ChildToParent
  }

  /** A message in place `n` of a log, on its own. */
  ghost predicate InPlace(m: Message, n: int) {
    m.sequence == n && n >= 1 && m.timestamp != "" && 1 <= |m.content| <= MAX_CONTENT_CHARS && Shaped(m)
  }

  /** The log as a whole: one run, identifiers used once, and every acknowledgement alone in answering an earlier steer. */
  ghost predicate Coherent(log: seq<Message>) {
    && (forall i, j :: 0 <= i < j < |log| ==> log[i].run == log[j].run && log[i].id != log[j].id)
    && (forall j :: 0 <= j < |log| && log[j].kind == Ack ==>
        exists i :: 0 <= i < j && log[i].kind == Steer && log[j].correlation == Some(log[i].id))
    && (forall i, j :: 0 <= i < j < |log| && log[i].kind == Ack && log[j].kind == Ack ==> log[i].correlation != log[j].correlation)
  }

  /** The checks of each message against those before it accept exactly the coherent logs. */
  lemma {:induction false} ValidLogMeaning(log: seq<Message>)
    ensures ValidLog(log) <==> Coherent(log) && forall i :: 0 <= i < |log| ==> InPlace(log[i], i + 1)
  {
    assert forall i :: 0 <= i < |log| ==> (ValidMessage(log[i], i + 1) <==> InPlace(log[i], i + 1));
    if ValidLog(log) {
      forall j | 0 <= j < |log| ensures ExtendsCoherently(log, j) {
        assert Extends(log[..j], log[j]);
        ExtendsMeaning(log, j);
      }
      CoherentByStep(log);
    }
    if Coherent(log) && forall i :: 0 <= i < |log| ==> InPlace(log[i], i + 1) {
      CoherentByStep(log);
      forall j | 0 <= j < |log| ensures Extends(log[..j], log[j]) { ExtendsMeaning(log, j); }
    }
  }

  /** What coherence demands of the message in place `j`. */
  ghost predicate ExtendsCoherently(log: seq<Message>, j: nat)
    requires j < |log|
  {
    && (forall i :: 0 <= i < j ==> log[i].id != log[j].id)
    && (j > 0 ==> log[0].run == log[j].run)
    && (log[j].kind == Ack && log[j].correlation != None ==>
        && (exists i :: 0 <= i < j && log[i].kind == Steer && log[j].correlation == Some(log[i].id))
        && (forall i :: 0 <= i < j && log[i].kind == Ack ==> log[i].correlation != log[j].correlation))
  }

  lemma ExtendsMeaning(log: seq<Message>, j: nat)
    requires j < |log|
    ensures Extends(log[..j], log[j]) <==> ExtendsCoherently(log, j)
  {
    assert forall i :: 0 <= i < j ==> log[..j][i] == log[i];
  }

  lemma CoherentByStep(log: seq<Message>)
    requires forall i :: 0 <= i < |log| ==> InPlace(log[i], i + 1)
    ensures Coherent(log) <==> forall j :: 0 <= j < |log| ==> ExtendsCoherently(log, j)
  {
    if forall j :: 0 <= j < |log| ==> ExtendsCoherently(log, j) {
      forall i, j | 0 <= i < j < |log|
        ensures log[i].run == log[j].run && log[i].id != log[j].id
        ensures log[i].kind == Ack && log[j].kind == Ack ==> log[i].correlation != log[j].correlation
      {
        assert ExtendsCoherently(log, i) && ExtendsCoherently(log, j) && InPlace(log[j], j + 1);
      }
      forall j | 0 <= j < |log| && log[j].kind == Ack
        ensures exists i :: 0 <= i < j && log[i].kind == Steer && log[j].correlation == Some(log[i].id)
      {
        assert ExtendsCoherently(log, j) && InPlace(log[j], j + 1);
      }
    }
  }

  class MessageLog {
    var log: seq<Message>

    /** `append_message`; `id` and `now` are the fresh identifier and the clock. */
    method AppendMessage(run: string, direction: Direction, kind: Kind, actor: string, content: string,
                         correlation: Option<string>, id: string, now: string) returns (ok: bool)
      modifies this
      ensures var m := Message(|old(log)| + 1, id, run, now, direction, kind, actor, content, correlation);
        && (ok <==> ValidLog(old(log)) && (forall k :: k in old(log) ==> k.run == run) && ValidLog(old(log) + [m]))
        && log == (if ok then old(log) + [m] else old(log))
    {
      var m := Message(|log| + 1, id, run, now, direction, kind, actor, content, correlation);
      ok := false;
      for i := 0 to |log|
        invariant forall k :: 0 <= k < i ==> ValidMessage(log[k], k + 1)
        invariant !ok && log == old(log)
      {
        if !ValidMessage(log[i], i + 1) { return; }
      }
      var valid := ValidateMessageLog(log);
      if !valid || exists k :: k in log && k.run != run { return; }
      AppendAgreesWithReplay(log, m);
      if !ValidMessage(m, |log| + 1) { return; }
      ValidLogIsDistinct(log);
      ok := MayFollow(log, m);
      if ok { log := log + [m]; }
    }
  }

  // ---------------------------------------------------------------- steering counters

  function SteerIds(log: seq<Message>): set<string> {
    set i | 0 <= i < |log| && log[i].kind.Steer? :: log[i].id
  }

  function AckedIds(log: seq<Message>): set<string> {
    set i | 0 <= i < |log| && log[i].kind.Ack? && log[i].correlation.Some? && log[i].correlation.value in SteerIds(log)
      :: log[i].correlation.value
  }

  function AckCount(log: seq<Message>): nat {
    if log == [] then 0 else AckCount(log[..|log| - 1]) + if log[|log| - 1].kind.Ack? then 1 else 0
  }

  function SteerCount(log: seq<Message>): nat {
    if log == [] then 0 else SteerCount(log[..|log| - 1]) + if log[|log| - 1].kind.Steer? then 1 else 0
  }

  lemma SteerIdsStep(log: seq<Message>, m: Message)
    ensures SteerIds(log + [m]) == SteerIds(log) + (if m.kind.Steer? then {m.id} else {})
  {
    var grown := log + [m];
    forall x | x in SteerIds(log) ensures x in SteerIds(grown) {
      var i :| 0 <= i < |log| && log[i].kind.Steer? && log[i].id == x;
      assert grown[i] == log[i];
    }
    if m.kind.Steer? { assert grown[|log|].id in SteerIds(grown); }
  }

  lemma AcksAnswerSteers(log: seq<Message>, i: nat)
    requires ValidLog(log) && i < |log| && log[i].kind.Ack?
    ensures log[i].correlation.Some? && log[i].correlation.value in SteerIds(log)
  {
    assert Extends(log[..i], log[i]);
    var j :| 0 <= j < i && log[..i][j].id == log[i].correlation.value && log[..i][j].kind.Steer?;
    assert log[j].kind.Steer?;
  }

  lemma AckedIdsMeaning(log: seq<Message>, x: string)
    requires ValidLog(log)
    ensures x in AckedIds(log) <==> Answered(log, x)
  {
    if Answered(log, x) {
      var i :| 0 <= i < |log| && log[i].kind.Ack? && log[i].correlation == Some(x);
      AcksAnswerSteers(log, i);
    }
  }

  lemma AckedIdsStep(log: seq<Message>, m: Message)
    requires ValidLog(log) && ValidMessage(m, |log| + 1) && ValidLog(log + [m])
    ensures AckedIds(log + [m]) == AckedIds(log) + (if m.kind.Ack? then {m.correlation.value} else {})
    ensures m.kind.Ack? ==> m.correlation.value !in AckedIds(log)
  {
    var grown := log + [m];
    assert grown[..|log|] == log && grown[|log|] == m && Extends(grown[..|log|], grown[|log|]);
    if m.kind.Ack? { AckedIdsMeaning(log, m.correlation.value); }
    forall x ensures x in AckedIds(grown) <==> x in AckedIds(log) || (m.kind.Ack? && x == m.correlation.value) {
      AckedIdsMeaning(log, x);
      AckedIdsMeaning(grown, x);
      if Answered(log, x) {
        var i :| 0 <= i < |log| && log[i].kind.Ack? && log[i].correlation == Some(x);
        assert grown[i] == log[i];
      }
      if Answered(grown, x) {
        var i :| 0 <= i < |grown| && grown[i].kind.Ack? && grown[i].correlation == Some(x);
        if i < |log| { assert log[i] == grown[i]; }
      }
    }
  }

  /**
   On every valid log the counters are conserved: steer requests are the acknowledged ones plus
   the pending ones, no request is counted twice, and every acknowledgement counts exactly once.
   */
  lemma {:induction false} SteeringIsConserved(log: seq<Message>)
    requires ValidLog(log)
    ensures |SteerIds(log)| == SteerCount(log) && |AckedIds(log)| == AckCount(log)
    ensures |SteerIds(log) - AckedIds(log)| == SteerCount(log) - AckCount(log)
  {
    SteersCountOnce(log);
    AcksCountOnce(log);
    SubsetDifference(SteerIds(log), AckedIds(log));
  }

  lemma {:induction false} SteersCountOnce(log: seq<Message>)
    requires ValidLog(log)
    ensures |SteerIds(log)| == SteerCount(log)
  {
    if log != [] {
      var n := |log| - 1;
      var prior, m := log[..n], log[n];
      assert log == prior + [m];
      PrefixIsValid(log, n);
      SteersCountOnce(prior);
      SteerIdsStep(prior, m);
      assert Extends(log[..n], log[n]);
    }
  }

  lemma {:induction false} AcksCountOnce(log: seq<Message>)
    requires ValidLog(log)
    ensures |AckedIds(log)| == AckCount(log)
  {
    if log != [] {
      var n := |log| - 1;
      var prior, m := log[..n], log[n];
      assert log == prior + [m];
      PrefixIsValid(log, n);
      AcksCountOnce(prior);
      AckedIdsStep(prior, m);
    }
  }

  lemma PrefixIsValid(log: seq<Message>, n: nat)
    requires ValidLog(log) && n <= |log|
    ensures ValidLog(log[..n])
  {
    forall i | 0 <= i < n ensures ValidMessage(log[..n][i], i + 1) && Extends(log[..n][..i], log[..n][i]) {
      assert log[..n][..i] == log[..i];
    }
  }

  lemma SubsetDifference(a: set<string>, b: set<string>)
    requires b <= a
    ensures |a - b| == |a| - |b|
  {
    assert a == (a - b) + b;
  }
}
