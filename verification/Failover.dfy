/**
 Failover routing: the sources are tried in order, each behind its own breaker, until one answers.
 */
module Failover {
  import opened Wrappers
  import opened Breaker

  /** A source in the chain during one call: its breaker before the call, its answer, the clock readings. */
  datatype Link<V> =
    Link(settings: Settings, view: View, name: string, answer: Result<V, string>, asked: int, after: int)
  {
    predicate Granted()
    {
      Admits(settings, view, asked)
    }

    predicate Serves()
    {
      Granted() && answer.Ok?
    }
  }

  /** The breaker's view after its source's turn: asked, then read, or told how the call ended. */
  ghost predicate TookTurn<V>(l: Link<V>, v: View)
  {
    if !l.Granted() then v == Replay(l.settings, l.view, [Event(Ask, l.asked), Event(ReadState, l.after)])
    else if l.answer.Ok? then v == Replay(l.settings, l.view, [Event(Ask, l.asked), Event(Succeed, l.after)])
    else v == Replay(l.settings, l.view, [Event(Ask, l.asked), Event(Fail, l.after)])
  }

  lemma TwoEvents(s: Settings, v: View, e1: Event, e2: Event)
    ensures Replay(s, v, [e1, e2]) == Apply(s, Apply(s, v, e1), e2)
  {
    assert [e1, e2][..1] == [e1];
    assert [e1][..0] == [];
    assert Replay(s, v, [e1]) == Apply(s, Replay(s, v, []), e1);
  }

  /** What goes to the health repository. */
  datatype Note =
    | NoteFailure(name: string, error: string)
    | NoteSuccess(name: string)
    | NoteSwitch(from: string, to: string)

  /** The first source that is admitted and succeeds; the length of the chain when there is none. */
  function Winner<V>(links: seq<Link<V>>): (k: nat)
    ensures k <= |links|
    ensures forall i :: 0 <= i < k ==> !links[i].Serves()
    ensures k < |links| ==> links[k].Serves()
  {
    if links == [] || links[0].Serves() then 0 else 1 + Winner(links[1..])
  }

  /** The sources really called: the admitted ones up to and including the winner, in chain order. */
  function Called<V>(links: seq<Link<V>>): seq<Link<V>>
  {
    if links == [] then []
    else if links[0].Serves() then [links[0]]
    else (if links[0].Granted() then [links[0]] else []) + Called(links[1..])
  }

  function Outcome<V>(l: Link<V>): Note
  {
    match l.answer
    case Ok(_) => NoteSuccess(l.name)
    case Err(e) => NoteFailure(l.name, e)
  }

  /** The notes of the called sources in order, each an outcome and then, after another source, a switch. */
  function Notes<V>(called: seq<Link<V>>, prev: string): seq<Note>
  {
    if called == [] then [] else CallNotes(called[0], prev) + Notes(called[1..], called[0].name)
  }

  function CallNotes<V>(l: Link<V>, prev: string): seq<Note>
  {
    if prev != "" && prev != l.name then [Outcome(l), NoteSwitch(prev, l.name)] else [Outcome(l)]
  }

  /** The first error met, if any. */
  function FirstError<V>(called: seq<Link<V>>): Option<string>
  {
    if called == [] then None
    else if called[0].answer.Err? then Some(called[0].answer.error)
    else FirstError(called[1..])
  }

  datatype Routed<V> = Skipped | Errored(error: string) | Answered(value: V)

  /** `routeOnce`: one breaker asked, its source called, the outcome recorded. */
  method RouteOnce<V>(prev: string, b: CircuitBreaker, name: string, answer: Result<V, string>, asked: int, after: int)
    returns (r: Routed<V>, notes: seq<Note>)
    modifies b
    ensures r.Skipped? ==> b.Now() == Replay(b.settings, old(b.Now()), [Event(Ask, asked), Event(ReadState, after)])
    ensures r.Answered? ==> b.Now() == Replay(b.settings, old(b.Now()), [Event(Ask, asked), Event(Succeed, after)])
    ensures r.Errored? ==> b.Now() == Replay(b.settings, old(b.Now()), [Event(Ask, asked), Event(Fail, after)])
    ensures r.Answered? ==> NoteSuccess(name) in notes && forall e :: NoteFailure(name, e) !in notes
    ensures r.Errored? ==> NoteFailure(name, r.error) in notes && NoteSuccess(name) !in notes
    ensures
      var l := Link(b.settings, old(b.Now()), name, answer, asked, after);
      && TookTurn(l, b.Now())
      && (r.Skipped? <==> !l.Granted())
      && (r.Answered? <==> l.Serves())
      && (r.Answered? ==> answer == Ok(r.value))
      && (r.Errored? ==> answer == Err(r.error))
      && notes == if l.Granted() then CallNotes(l, prev) else []
  {
    notes := [];
    ghost var v := b.Now();
    TwoEvents(b.settings, v, Event(Ask, asked), Event(ReadState, after));
    TwoEvents(b.settings, v, Event(Ask, asked), Event(Succeed, after));
    TwoEvents(b.settings, v, Event(Ask, asked), Event(Fail, after));
    var ok := b.Allow(asked);
    if !ok {
      var _ := b.State(after);
      return Skipped, [];
    }
    match answer {
      case Err(e) =>
        b.RecordFailure(after);
        notes := notes + [NoteFailure(name, e)];
        r := Errored(e);
      case Ok(v) =>
        b.RecordSuccess();
        notes := notes + [NoteSuccess(name)];
        r := Answered(v);
    }
    if prev != "" && prev != name {
      notes := notes + [NoteSwitch(prev, name)];
    }
  }

  /** The links a chain presents, read off the breakers. */
  ghost function Links<V>(breakers: seq<CircuitBreaker>, names: seq<string>, answers: seq<Result<V, string>>,
                          times: seq<(int, int)>): seq<Link<V>>
    requires |breakers| == |names| == |answers| == |times|
    reads breakers
  {
    seq(|breakers|, i requires 0 <= i < |breakers| reads breakers =>
      Link(breakers[i].settings, breakers[i].Now(), names[i], answers[i], times[i].0, times[i].1))
  }

  lemma {:induction false} NotesAppend<V>(called: seq<Link<V>>, l: Link<V>, prev: string)
    ensures Notes(called + [l], prev) ==
            Notes(called, prev) + CallNotes(l, if called == [] then prev else called[|called| - 1].name)
  {
    var all := called + [l];
    if called == [] {
      assert all[0] == l && Notes(all[1..], l.name) == [];
    } else {
      var head := CallNotes(called[0], prev);
      var last := CallNotes(l, called[|called| - 1].name);
      assert all[0] == called[0] && all[1..] == called[1..] + [l];
      NotesAppend(called[1..], l, called[0].name);
      assert head + (Notes(called[1..], called[0].name) + last) == (head + Notes(called[1..], called[0].name)) + last;
    }
  }

  /** The called sources of a prefix of the chain that no source of the prefix serves. */
  lemma {:induction false} CalledNext<V>(links: seq<Link<V>>, i: nat)
    requires i < |links| && forall j :: 0 <= j < i ==> !links[j].Serves()
    ensures Called(links[..i + 1]) == Called(links[..i]) + if links[i].Granted() then [links[i]] else []
  {
    if i == 0 {
      assert links[..1] == [links[0]] && links[..0] == [];
      assert [links[0]][1..] == [];
      assert Called<V>([]) == [];
    } else {
      CalledNext(links[1..], i - 1);
      assert links[..i + 1][1..] == links[1..][..i] && links[..i][1..] == links[1..][..i - 1];
    }
  }

  lemma {:induction false} CalledStops<V>(links: seq<Link<V>>, k: nat)
    requires k < |links| && links[k].Serves() && forall j :: 0 <= j < k ==> !links[j].Serves()
    ensures Called(links) == Called(links[..k + 1]) && Winner(links) == k
  {
    if k == 0 {
      assert links[..1] == [links[0]];
    } else {
      CalledStops(links[1..], k - 1);
      assert links[..k + 1][1..] == links[1..][..k];
    }
  }

  lemma {:induction false} NoWinner<V>(links: seq<Link<V>>)
    requires forall j :: 0 <= j < |links| ==> !links[j].Serves()
    ensures Winner(links) == |links|
  {
    if links != [] {
      NoWinner(links[1..]);
    }
  }

  lemma {:induction false} FirstErrorAppend<V>(called: seq<Link<V>>, l: Link<V>)
    ensures FirstError(called + [l]) ==
            if FirstError(called).Some? then FirstError(called)
            else if l.answer.Err? then Some(l.answer.error)
            else None
  {
    if called == [] {
      assert called + [l] == [l];
      assert [l][1..] == [];
      assert FirstError<V>([]) == None;
    } else {
      FirstErrorAppend(called[1..], l);
      assert (called + [l])[1..] == called[1..] + [l];
    }
  }

  function LastName<V>(called: seq<Link<V>>): string
  {
    if called == [] then "" else called[|called| - 1].name
  }

  /** What one more visited link adds to the running notes, first error and last name. */
  lemma WalkStep<V>(links: seq<Link<V>>, i: nat)
    requires i < |links| && forall j :: 0 <= j < i ==> !links[j].Serves()
    ensures
      var c, c' := Called(links[..i]), Called(links[..i + 1]);
      if links[i].Granted() then
        && Notes(c', "") == Notes(c, "") + CallNotes(links[i], LastName(c))
        && FirstError(c') == (if FirstError(c).Some? then FirstError(c)
                              else if links[i].answer.Err? then Some(links[i].answer.error) else None)
        && LastName(c') == links[i].name
      else c' == c
  {
    CalledNext(links, i);
    NotesAppend(Called(links[..i]), links[i], "");
    FirstErrorAppend(Called(links[..i]), links[i]);
    assert Called(links[..i]) + [] == Called(links[..i]);
  }

  /** The loop's variables after `i` links none of which serves. */
  ghost predicate Walked<V>(links: seq<Link<V>>, i: nat, notes: seq<Note>, firstErr: Option<string>, prev: string)
  {
    && i <= |links| && (forall j :: 0 <= j < i ==> !links[j].Serves())
    && notes == Notes(Called(links[..i]), "")
    && firstErr == FirstError(Called(links[..i]))
    && prev == LastName(Called(links[..i]))
  }

  /** A link that is refused or fails lets the walk go on. */
  lemma WalkOn<V>(links: seq<Link<V>>, i: nat, notes: seq<Note>, firstErr: Option<string>, prev: string)
    requires Walked(links, i, notes, firstErr, prev) && i < |links| && !links[i].Serves()
    ensures
      var l := links[i];
      if l.Granted() then
        Walked(links, i + 1, notes + CallNotes(l, prev),
               if firstErr.Some? then firstErr else Some(l.answer.error), l.name)
      else Walked(links, i + 1, notes, firstErr, prev)
  {
    WalkStep(links, i);
  }

  /** A link that serves ends it. */
  lemma WalkEnds<V>(links: seq<Link<V>>, i: nat, notes: seq<Note>, firstErr: Option<string>, prev: string)
    requires Walked(links, i, notes, firstErr, prev) && i < |links| && links[i].Serves()
    ensures Winner(links) == i && notes + CallNotes(links[i], prev) == Notes(Called(links), "")
  {
    WalkStep(links, i);
    CalledStops(links, i);
  }

  lemma WalkExhausted<V>(links: seq<Link<V>>, notes: seq<Note>, firstErr: Option<string>, prev: string)
    requires Walked(links, |links|, notes, firstErr, prev)
    ensures Winner(links) == |links| && notes == Notes(Called(links), "") && firstErr == FirstError(Called(links))
  {
    assert links[..|links|] == links;
    NoWinner(links);
  }

  /** Every breaker before position `i` has had its turn, the others are as they were. */
  ghost predicate Turned<V>(breakers: seq<CircuitBreaker>, links: seq<Link<V>>, i: nat)
    requires |breakers| == |links|
    reads breakers
  {
    forall j :: 0 <= j < |links| ==>
      if j < i then TookTurn(links[j], breakers[j].Now()) else breakers[j].Now() == links[j].view
  }

  /** One link of the walk: only its own breaker changes. */
  method VisitLink<V>(breakers: seq<CircuitBreaker>, ghost links: seq<Link<V>>, i: nat, prev: string,
                      name: string, answer: Result<V, string>, asked: int, after: int)
    returns (one: Routed<V>, more: seq<Note>)
    requires i < |breakers| == |links| && Turned(breakers, links, i)
    requires forall j, k :: 0 <= j < k < |breakers| ==> breakers[j] != breakers[k]
    requires links[i] == Link(breakers[i].settings, links[i].view, name, answer, asked, after)
    modifies breakers[i]
    ensures Turned(breakers, links, i + 1)
    ensures (one.Answered? <==> links[i].Serves()) && (one.Skipped? <==> !links[i].Granted())
    ensures one.Answered? ==> answer == Ok(one.value)
    ensures one.Errored? ==> answer == Err(one.error)
    ensures more == if links[i].Granted() then CallNotes(links[i], prev) else []
  {
    assert breakers[i].Now() == links[i].view;
    one, more := RouteOnce(prev, breakers[i], name, answer, asked, after);
    forall j | 0 <= j < |links|
      ensures if j < i + 1 then TookTurn(links[j], breakers[j].Now()) else breakers[j].Now() == links[j].view
    {
      if j != i {
        assert breakers[j] != breakers[i];
        assert breakers[j].Now() == old(breakers[j].Now());
      }
    }
  }

  /**
   The chain walk of `callQuote` and its siblings.  The answer is the winner's; every breaker before
   the winner, and the winner's, has had exactly one turn; the breakers behind it are untouched; the
   notes are those of the sources called.
   */
  method CallChain<V>(breakers: seq<CircuitBreaker>, names: seq<string>, answers: seq<Result<V, string>>,
                      times: seq<(int, int)>)
    returns (r: Result<(V, string), Option<string>>, notes: seq<Note>)
    requires |breakers| == |names| == |answers| == |times|
    requires forall i, j :: 0 <= i < j < |breakers| ==> breakers[i] != breakers[j]
    modifies breakers
    ensures
      var links := old(Links(breakers, names, answers, times));
      var k := Winner(links);
      && (if k < |links| then links[k].answer.Ok? && r == Ok((links[k].answer.value, links[k].name))
          else r == Err(FirstError(Called(links))))
      && Turned(breakers, links, if k < |links| then k + 1 else k)
      && notes == Notes(Called(links), "")
  {
    ghost var links := Links(breakers, names, answers, times);
    var firstErr: Option<string> := None;
    var prev := "";
    notes := [];
    for i := 0 to |breakers|
      invariant Turned(breakers, links, i)
      invariant Walked(links, i, notes, firstErr, prev)
    {
      var one, more := VisitLink(breakers, links, i, prev, names[i], answers[i], times[i].0, times[i].1);
      if one.Answered? {
        WalkEnds(links, i, notes, firstErr, prev);
        return Ok((one.value, names[i])), notes + more;
      }
      WalkOn(links, i, notes, firstErr, prev);
      notes := notes + more;
      if one.Errored? {
        prev := names[i];
        if firstErr.None? {
          firstErr := Some(one.error);
        }
      }
    }
    WalkExhausted(links, notes, firstErr, prev);
    r := Err(firstErr);
  }

  // --- what the walk means ------------------------------------------------------------------

  /** The positions, from `from` on, of the sources called. */
  function CalledAt<V>(links: seq<Link<V>>, from: nat): seq<nat>
    requires from <= |links|
    decreases |links| - from
  {
    if from == |links| then []
    else if links[from].Serves() then [from]
    else (if links[from].Granted() then [from] else []) + CalledAt(links, from + 1)
  }

  lemma {:induction false} CalledAtMatches<V>(links: seq<Link<V>>, from: nat)
    requires from <= |links|
    ensures |CalledAt(links, from)| == |Called(links[from..])|
    ensures forall j :: 0 <= j < |CalledAt(links, from)| ==>
      from <= CalledAt(links, from)[j] < |links| && Called(links[from..])[j] == links[CalledAt(links, from)[j]]
    decreases |links| - from
  {
    if from < |links| {
      CalledAtMatches(links, from + 1);
      assert links[from..][0] == links[from] && links[from..][1..] == links[from + 1..];
    }
  }

  lemma {:induction false} CalledAtExact<V>(links: seq<Link<V>>, from: nat)
    requires from <= |links| && from <= Winner(links)
    ensures forall i :: i in CalledAt(links, from) <==>
      from <= i < |links| && i <= Winner(links) && links[i].Granted()
    ensures forall i, j :: 0 <= i < j < |CalledAt(links, from)| ==> CalledAt(links, from)[i] < CalledAt(links, from)[j]
    decreases |links| - from
  {
    if from < |links| && !links[from].Serves() {
      CalledAtExact(links, from + 1);
      var rest := CalledAt(links, from + 1);
      assert forall j :: 0 <= j < |rest| ==> rest[j] in rest;
    } else if from < |links| {
      assert Winner(links) == from;
    }
  }

  /**
   The called sources are exactly the admitted ones up to the winner, in chain order: each is called
   at most once, none is skipped while admitted, none behind the winner is called.
   */
  lemma CalledExactly<V>(links: seq<Link<V>>) returns (at: seq<nat>)
    ensures |at| == |Called(links)|
    ensures forall j :: 0 <= j < |at| ==> at[j] < |links| && Called(links)[j] == links[at[j]]
    ensures forall i: nat :: i in at <==> i < |links| && i <= Winner(links) && links[i].Granted()
    ensures forall i, j :: 0 <= i < j < |at| ==> at[i] < at[j]
  {
    at := CalledAt(links, 0);
    assert links[0..] == links;
    CalledAtMatches(links, 0);
    CalledAtExact(links, 0);
  }

  /** The switch notes among the notes. */
  function Switches(notes: seq<Note>): seq<(string, string)>
  {
    if notes == [] then []
    else (if notes[0].NoteSwitch? then [(notes[0].from, notes[0].to)] else []) + Switches(notes[1..])
  }

  /** The outcome notes among the notes. */
  function Outcomes(notes: seq<Note>): seq<Note>
  {
    if notes == [] then []
    else (if notes[0].NoteSwitch? then [] else [notes[0]]) + Outcomes(notes[1..])
  }

  function Pairs<V>(called: seq<Link<V>>, prev: string): seq<(string, string)>
  {
    if called == [] then [] else [(prev, called[0].name)] + Pairs(called[1..], called[0].name)
  }

  /** Every called source leaves exactly one outcome note, in order. */
  lemma {:induction false} OneOutcomePerCall<V>(called: seq<Link<V>>, prev: string)
    ensures |Outcomes(Notes(called, prev))| == |called|
    ensures forall j :: 0 <= j < |called| ==>
      match called[j].answer
      case Ok(_) => Outcomes(Notes(called, prev))[j] == NoteSuccess(called[j].name)
      case Err(e) => Outcomes(Notes(called, prev))[j] == NoteFailure(called[j].name, e)
  {
    if called != [] {
      var rest := Notes(called[1..], called[0].name);
      OneOutcomePerCall(called[1..], called[0].name);
      var all := Notes(called, prev);
      assert all[1..] == rest || (all[1].NoteSwitch? && all[2..] == rest && all[1..][1..] == all[2..]);
      assert Outcomes(all) == [Outcome(called[0])] + Outcomes(rest);
    }
  }

  lemma {:induction false} SwitchChainFrom<V>(called: seq<Link<V>>, prev: string)
    requires prev != "" && forall i :: 0 <= i < |called| ==> called[i].name != "" && called[i].name != prev
    requires forall i, j :: 0 <= i < j < |called| ==> called[i].name != called[j].name
    ensures Switches(Notes(called, prev)) == Pairs(called, prev)
  {
    if called != [] {
      SwitchChainFrom(called[1..], called[0].name);
      var all := Notes(called, prev);
      assert all[1] == NoteSwitch(prev, called[0].name);
      assert all[2..] == Notes(called[1..], called[0].name) && all[1..][1..] == all[2..];
    }
  }

  /** With distinct names the switch notes form one unbroken from-to chain over the sources called. */
  lemma SwitchChain<V>(called: seq<Link<V>>)
    requires forall i :: 0 <= i < |called| ==> called[i].name != ""
    requires forall i, j :: 0 <= i < j < |called| ==> called[i].name != called[j].name
    ensures Switches(Notes(called, "")) == if called == [] then [] else Pairs(called[1..], called[0].name)
  {
    if called != [] {
      SwitchChainFrom(called[1..], called[0].name);
      var all := Notes(called, "");
      assert all[1..] == Notes(called[1..], called[0].name);
    }
  }

  lemma {:induction false} PairsAt<V>(called: seq<Link<V>>, prev: string)
    ensures |Pairs(called, prev)| == |called|
    ensures forall i :: 0 <= i < |called| ==>
      Pairs(called, prev)[i] == (if i == 0 then prev else called[i - 1].name, called[i].name)
  {
    if called != [] {
      PairsAt(called[1..], called[0].name);
    }
  }

  /** The error handed back is that of the first called source that erred; none when nobody erred. */
  lemma {:induction false} FirstErrorExact<V>(called: seq<Link<V>>)
    ensures FirstError(called).None? <==> forall j :: 0 <= j < |called| ==> called[j].answer.Ok?
    ensures FirstError(called).Some? ==> exists j :: 0 <= j < |called| && FirstErrs(called, j, FirstError(called).value)
  {
    if called != [] && called[0].answer.Err? {
      assert FirstErrs(called, 0, called[0].answer.error);
    } else if called != [] {
      FirstErrorExact(called[1..]);
      assert forall j :: 0 < j < |called| ==> called[j] == called[1..][j - 1];
      if FirstError(called).Some? {
        var j :| 0 <= j < |called| - 1 && FirstErrs(called[1..], j, FirstError(called).value);
        assert FirstErrs(called, j + 1, FirstError(called).value);
      }
    }
  }

  ghost predicate FirstErrs<V>(called: seq<Link<V>>, j: nat, e: string)
  {
    j < |called| && called[j].answer == Err(e) && forall k :: 0 <= k < j ==> called[k].answer.Ok?
  }

  // --- many walks ---------------------------------------------------------------------------

  /** The view of a source's breaker after a walk. */
  ghost predicate LeavesView<V>(links: seq<Link<V>>, i: nat, v: View)
    requires i < |links|
  {
    if i <= Winner(links) then TookTurn(links[i], v) else v == links[i].view
  }

  /** The links of a walk are what the breakers, the sources and the clock present to it. */
  ghost predicate Presented<V>(links: seq<Link<V>>, breakers: seq<CircuitBreaker>, names: seq<string>,
                               answers: seq<Result<V, string>>, times: seq<(int, int)>)
    requires |breakers| == |names| == |answers| == |times|
  {
    && |links| == |breakers|
    && forall i :: 0 <= i < |links| ==>
         links[i] == Link(breakers[i].settings, links[i].view, names[i], answers[i], times[i].0, times[i].1)
  }

  ghost function Views(breakers: seq<CircuitBreaker>): seq<View>
    reads breakers
  {
    seq(|breakers|, i requires 0 <= i < |breakers| reads breakers => breakers[i].Now())
  }

  /** The views are as the walk leaves them. */
  ghost predicate LeavesAll<V>(links: seq<Link<V>>, views: seq<View>)
  {
    |links| == |views| && forall i :: 0 <= i < |links| ==> LeavesView(links, i, views[i])
  }

  /** The views are those the walk starts with. */
  ghost predicate StartsWith<V>(links: seq<Link<V>>, views: seq<View>)
  {
    |links| == |views| && forall i :: 0 <= i < |links| ==> links[i].view == views[i]
  }

  /** The answer is the winner's. */
  ghost predicate Won<V>(r: Result<(V, string), Option<string>>, links: seq<Link<V>>)
  {
    && (r.Ok? <==> Winner(links) < |links|)
    && (r.Ok? ==> r.value.1 == links[Winner(links)].name && links[Winner(links)].answer == Ok(r.value.0))
  }

  /** Walk `j` starts with the views that the walk before it left. */
  ghost predicate FollowsOn<V>(rounds: seq<seq<Link<V>>>, j: nat)
    requires 0 < j < |rounds|
  {
    && |rounds[j]| == |rounds[j - 1]|
    && forall i :: 0 <= i < |rounds[j]| ==>
         rounds[j][i].settings == rounds[j - 1][i].settings && LeavesView(rounds[j - 1], i, rounds[j][i].view)
  }

  ghost predicate Successive<V>(rounds: seq<seq<Link<V>>>)
  {
    forall j :: 0 < j < |rounds| ==> FollowsOn(rounds, j)
  }

  method OneRound<V>(breakers: seq<CircuitBreaker>, names: seq<string>, answers: seq<Result<V, string>>,
                     times: seq<(int, int)>)
    returns (r: Result<(V, string), Option<string>>, ghost links: seq<Link<V>>)
    requires |breakers| == |names| == |answers| == |times|
    requires forall i, j :: 0 <= i < j < |breakers| ==> breakers[i] != breakers[j]
    modifies breakers
    ensures Presented(links, breakers, names, answers, times) && Won(r, links)
    ensures StartsWith(links, old(Views(breakers))) && LeavesAll(links, Views(breakers))
  {
    links := Links(breakers, names, answers, times);
    var notes;
    r, notes := CallChain(breakers, names, answers, times);
  }

  /** Walks from some views to others, each starting where the one before it ended. */
  ghost predicate Lead<V>(rounds: seq<seq<Link<V>>>, first: seq<View>, last: seq<View>)
  {
    Successive(rounds) &&
    if rounds == [] then first == last
    else StartsWith(rounds[0], first) && LeavesAll(rounds[|rounds| - 1], last)
  }

  lemma OneMoreRound<V>(rounds: seq<seq<Link<V>>>, links: seq<Link<V>>, first: seq<View>, was: seq<View>,
                        last: seq<View>)
    requires Lead(rounds, first, was) && StartsWith(links, was) && LeavesAll(links, last)
    requires rounds != [] ==> SameSettings(rounds[|rounds| - 1], links)
    ensures Lead(rounds + [links], first, last)
  {
    forall j | 0 < j < |rounds| + 1 ensures FollowsOn(rounds + [links], j) {
      if j < |rounds| {
        assert FollowsOn(rounds, j);
      }
    }
  }

  ghost predicate SameSettings<V>(a: seq<Link<V>>, b: seq<Link<V>>)
  {
    |a| == |b| && forall i :: 0 <= i < |a| ==> a[i].settings == b[i].settings
  }

  ghost predicate AllPresented<V>(rounds: seq<seq<Link<V>>>, breakers: seq<CircuitBreaker>, names: seq<string>,
                                  answers: seq<seq<Result<V, string>>>, times: seq<seq<(int, int)>>)
    requires |breakers| == |names| && |rounds| <= |answers| == |times|
    requires forall j :: 0 <= j < |answers| ==> |answers[j]| == |breakers| && |times[j]| == |breakers|
  {
    forall j :: 0 <= j < |rounds| ==> Presented(rounds[j], breakers, names, answers[j], times[j])
  }

  lemma PresentedNext<V>(rounds: seq<seq<Link<V>>>, links: seq<Link<V>>, breakers: seq<CircuitBreaker>,
                         names: seq<string>, answers: seq<seq<Result<V, string>>>, times: seq<seq<(int, int)>>)
    requires |breakers| == |names| && |rounds| < |answers| == |times|
    requires forall j :: 0 <= j < |answers| ==> |answers[j]| == |breakers| && |times[j]| == |breakers|
    requires AllPresented(rounds, breakers, names, answers, times)
    requires Presented(links, breakers, names, answers[|rounds|], times[|rounds|])
    ensures AllPresented(rounds + [links], breakers, names, answers, times)
  {
  }

  lemma PresentedAlike<V>(a: seq<Link<V>>, b: seq<Link<V>>, breakers: seq<CircuitBreaker>, names: seq<string>,
                          answers1: seq<Result<V, string>>, times1: seq<(int, int)>,
                          answers2: seq<Result<V, string>>, times2: seq<(int, int)>)
    requires |breakers| == |names| == |answers1| == |times1| == |answers2| == |times2|
    requires Presented(a, breakers, names, answers1, times1) && Presented(b, breakers, names, answers2, times2)
    ensures SameSettings(a, b)
  {
  }

  /** One walk after the other over the same chain. */
  method CallRounds<V>(breakers: seq<CircuitBreaker>, names: seq<string>, answers: seq<seq<Result<V, string>>>,
                       times: seq<seq<(int, int)>>)
    returns (rs: seq<Result<(V, string), Option<string>>>, ghost rounds: seq<seq<Link<V>>>)
    requires |breakers| == |names| && |answers| == |times|
    requires forall j :: 0 <= j < |answers| ==> |answers[j]| == |breakers| && |times[j]| == |breakers|
    requires forall i, j :: 0 <= i < j < |breakers| ==> breakers[i] != breakers[j]
    modifies breakers
    ensures |rs| == |rounds| == |answers| && Lead(rounds, old(Views(breakers)), Views(breakers))
    ensures AllPresented(rounds, breakers, names, answers, times)
    ensures forall j :: 0 <= j < |rounds| ==> Won(rs[j], rounds[j])
  {
    rs, rounds := [], [];
    for j := 0 to |answers|
      invariant |rs| == |rounds| == j && Lead(rounds, old(Views(breakers)), Views(breakers))
      invariant AllPresented(rounds, breakers, names, answers, times)
      invariant forall k :: 0 <= k < j ==> Won(rs[k], rounds[k])
    {
      ghost var links;
      var r;
      ghost var was := Views(breakers);
      r, links := OneRound(breakers, names, answers[j], times[j]);
      PresentedNext(rounds, links, breakers, names, answers, times);
      if j > 0 {
        PresentedAlike(rounds[j - 1], links, breakers, names, answers[j - 1], times[j - 1], answers[j], times[j]);
      }
      OneMoreRound(rounds, links, old(Views(breakers)), was, Views(breakers));
      rs, rounds := rs + [r], rounds + [links];
    }
  }

  /** The clock readings of one source in the first walks. */
  function Readings<V>(rounds: seq<seq<Link<V>>>, i: nat): seq<(int, int)>
    requires forall j :: 0 <= j < |rounds| ==> i < |rounds[j]|
  {
    seq(|rounds|, j requires 0 <= j < |rounds| => (rounds[j][i].asked, rounds[j][i].after))
  }

  /** A source that each walk reaches, asks and calls, always with an error, or always with an answer. */
  ghost predicate AlwaysEnds<V>(rounds: seq<seq<Link<V>>>, i: nat, answered: bool)
  {
    forall j :: 0 <= j < |rounds| ==> i < |rounds[j]| && CalledAlike(rounds[j], i, answered)
  }

  ghost predicate CalledAlike<V>(links: seq<Link<V>>, i: nat, answered: bool)
    requires i < |links|
  {
    i <= Winner(links) && links[i].Granted() && links[i].answer.Ok? == answered
  }

  /** A turn that ends with a call adds the call to the history. */
  lemma ViewAfterCall<V>(l: Link<V>, v: View, answered: bool, s: Settings, h: seq<Event>, calls: seq<(int, int)>)
    requires calls != [] && l.settings == s && l.Granted() && l.answer.Ok? == answered && TookTurn(l, v)
    requires (l.asked, l.after) == calls[|calls| - 1]
    requires l.view == Breaker.After(s, h + Streak(calls[..|calls| - 1], if answered then Succeed else Fail))
    ensures v == Breaker.After(s, h + Streak(calls, if answered then Succeed else Fail))
  {
    var outcome := if answered then Succeed else Fail;
    var q, c := h + Streak(calls[..|calls| - 1], outcome), calls[|calls| - 1];
    StreakNext(s, h, calls, outcome);
    ReplayAfter(s, q, [Event(Ask, c.0), Event(outcome, c.1)]);
    assert q + [Event(Ask, c.0), Event(outcome, c.1)] == q + [Event(Ask, c.0)] + [Event(outcome, c.1)];
  }

  /** The breaker's history grows by the call at each walk. */
  lemma {:induction false} ViewsAlong<V>(rounds: seq<seq<Link<V>>>, next: seq<Link<V>>, i: nat, answered: bool,
                                         s: Settings, h: seq<Event>)
    requires Successive(rounds + [next]) && AlwaysEnds(rounds, i, answered) && i < |(rounds + [next])[0]|
    requires (rounds + [next])[0][i].settings == s && (rounds + [next])[0][i].view == Breaker.After(s, h)
    ensures i < |next| && next[i].settings == s
    ensures next[i].view == Breaker.After(s, h + Streak(Readings(rounds, i), if answered then Succeed else Fail))
  {
    if rounds == [] {
      assert h + Streak([], if answered then Succeed else Fail) == h;
    } else {
      var q, last := rounds[..|rounds| - 1], rounds[|rounds| - 1];
      LastRound(rounds, next);
      assert forall k :: 0 <= k < |q| ==> q[k] == rounds[k];
      ViewsAlong(q, last, i, answered, s, h);
      assert CalledAlike(last, i, answered);
      var calls := Readings(rounds, i);
      assert calls[..|q|] == Readings(q, i);
      ViewAfterCall(last[i], next[i].view, answered, s, h, calls);
    }
  }

  lemma LastRound<V>(rounds: seq<seq<Link<V>>>, next: seq<Link<V>>)
    requires Successive(rounds + [next]) && rounds != []
    ensures Successive(rounds[..|rounds| - 1] + [rounds[|rounds| - 1]])
    ensures
      var last := rounds[|rounds| - 1];
      |next| == |last| &&
      forall i :: 0 <= i < |next| ==> next[i].settings == last[i].settings && LeavesView(last, i, next[i].view)
  {
    var all := rounds + [next];
    assert FollowsOn(all, |rounds|);
    assert rounds[..|rounds| - 1] + [rounds[|rounds| - 1]] == rounds;
    forall j | 0 < j < |rounds| ensures FollowsOn(rounds, j) {
      assert FollowsOn(all, j);
    }
  }

  /**
   A source that errs at as many walks as its threshold, all inside one window, is skipped by the next
   walk, until a cooldown after its last error.
   */
  lemma ErringSourceSkipped<V>(rounds: seq<seq<Link<V>>>, next: seq<Link<V>>, i: nat, s: Settings, h: seq<Event>)
    requires Successive(rounds + [next]) && rounds != [] && AlwaysEnds(rounds, i, false)
    requires rounds[0][i].settings == s && s.Positive() && |rounds| >= s.threshold
    requires rounds[0][i].view == Breaker.After(s, h) && Breaker.After(s, h).state.Closed?
    requires Nondecreasing(h + Streak(Readings(rounds, i), Fail)) && InOneWindow(Readings(rounds, i), s.window)
    ensures i < |next|
    ensures next[i].Granted() <==> next[i].asked - rounds[|rounds| - 1][i].after >= s.cooldown
  {
    ViewsAlong(rounds, next, i, false, s, h);
    AllWereAdmitted(rounds, next, i, s, h);
    Tripped(next[i], s, h, Readings(rounds, i));
  }

  /** The last of the calls ended less than a window after each of them. */
  ghost predicate InOneWindow(calls: seq<(int, int)>, window: int)
  {
    forall j :: 0 <= j < |calls| ==> calls[|calls| - 1].1 - window < calls[j].1
  }

  lemma Tripped<V>(l: Link<V>, s: Settings, h: seq<Event>, calls: seq<(int, int)>)
    requires l.settings == s && l.view == Breaker.After(s, h + Streak(calls, Fail))
    requires s.Positive() && Breaker.After(s, h).state.Closed? && AllAdmitted(s, h, calls, Fail)
    requires Nondecreasing(h + Streak(calls, Fail)) && |calls| >= s.threshold && InOneWindow(calls, s.window)
    ensures l.Granted() <==> l.asked - calls[|calls| - 1].1 >= s.cooldown
  {
    ErrorsTrip(s, h, calls, l.asked);
  }

  lemma AdmittedAt<V>(rounds: seq<seq<Link<V>>>, next: seq<Link<V>>, i: nat, s: Settings, h: seq<Event>, j: nat)
    requires Successive(rounds + [next]) && j < |rounds| && AlwaysEnds(rounds, i, false)
    requires rounds[0][i].settings == s && rounds[0][i].view == Breaker.After(s, h)
    ensures
      var calls := Readings(rounds, i);
      Admits(s, Breaker.After(s, h + Streak(calls[..j], Fail)), calls[j].0)
  {
    RoundsBefore(rounds, next, i, false, j);
    ViewsAlong(rounds[..j], rounds[j], i, false, s, h);
    assert Readings(rounds, i)[..j] == Readings(rounds[..j], i);
    assert CalledAlike(rounds[j], i, false);
  }

  lemma AllWereAdmitted<V>(rounds: seq<seq<Link<V>>>, next: seq<Link<V>>, i: nat, s: Settings, h: seq<Event>)
    requires Successive(rounds + [next]) && rounds != [] && AlwaysEnds(rounds, i, false)
    requires rounds[0][i].settings == s && rounds[0][i].view == Breaker.After(s, h)
    ensures AllAdmitted(s, h, Readings(rounds, i), Fail)
  {
    var calls := Readings(rounds, i);
    forall j | 0 <= j < |rounds| ensures Admits(s, Breaker.After(s, h + Streak(calls[..j], Fail)), calls[j].0) {
      AdmittedAt(rounds, next, i, s, h, j);
    }
  }

  lemma RoundsBefore<V>(rounds: seq<seq<Link<V>>>, next: seq<Link<V>>, i: nat, answered: bool, j: nat)
    requires j < |rounds| && AlwaysEnds(rounds, i, answered) && Successive(rounds + [next])
    ensures AlwaysEnds(rounds[..j], i, answered) && Successive(rounds[..j] + [rounds[j]])
    ensures (rounds[..j] + [rounds[j]])[0] == rounds[0]
  {
    forall k | 0 <= k < j ensures i < |rounds[..j][k]| && CalledAlike(rounds[..j][k], i, answered) {
      assert CalledAlike(rounds[k], i, answered);
    }
    forall k | 0 < k < j + 1 ensures FollowsOn(rounds[..j] + [rounds[j]], k) {
      assert FollowsOn(rounds + [next], k);
    }
  }

  /** A source behind a closed breaker that only answers is never refused, and its failures stay noted. */
  lemma AnsweringSourceKept<V>(rounds: seq<seq<Link<V>>>, next: seq<Link<V>>, i: nat, s: Settings, h: seq<Event>)
    requires Successive(rounds + [next]) && rounds != [] && AlwaysEnds(rounds, i, true)
    requires rounds[0][i].settings == s
    requires rounds[0][i].view == Breaker.After(s, h) && Breaker.After(s, h).state.Closed?
    ensures i < |next| && next[i].Granted()
    ensures SinceClose(s, h + Streak(Readings(rounds, i), Succeed)) == SinceClose(s, h)
  {
    ViewsAlong(rounds, next, i, true, s, h);
    AnswersKeep(s, h, Readings(rounds, i), next[i].asked);
  }
}
