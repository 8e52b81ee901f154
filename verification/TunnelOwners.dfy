/** Who is called with what arrives through a tunnel, MulticastForwarding/Tunnel.cpp, told from the calls of addOwner alone. */
module TunnelOwners {
  import opened Bytes
  import opened TunnelEndpoints
  import opened TunnelRuns

  function Side(w: World, c: bool): Endpoint {
    if c then w.client else w.server
  }

  /** The owners that a script adds at one end, as often as it does so */
  function Owns(script: seq<Turn>, c: bool): seq<nat> {
    if script == [] then []
    else
      var t := script[|script| - 1];
      Owns(script[..|script| - 1], c) + if t.atClient == c && t.action.Own? then [t.action.owner] else []
  }

  /** Each number once, in the order in which they come first */
  function Distinct(s: seq<nat>): seq<nat> {
    if s == [] then []
    else
      var r := s[..|s| - 1];
      Distinct(r) + if s[|s| - 1] in r then [] else [s[|s| - 1]]
  }

  /** The turn after a script delivers something at one end. */
  predicate Delivers(w: World, script: seq<Turn>, t: Turn, c: bool) {
    |Side(After(Trace(w, script), t), c).log| > |Side(Trace(w, script), c).log|
  }

  /** Something has been delivered while nobody had been added, and the fallback took it. */
  predicate Orphaned(w: World, script: seq<Turn>, c: bool) {
    && script != [] && Side(w, c).fallback.Some? && Side(w, c).owners == []
    && var before := script[..|script| - 1];
       Orphaned(w, before, c) || (Owns(before, c) == [] && Delivers(w, before, script[|script| - 1], c))
  }

  /** Who is to be called after a script: the owners from the start, the fallback if it had to help out, and those added */
  function Names(w: World, script: seq<Turn>, c: bool): seq<nat> {
    Distinct(Side(w, c).owners + Helper(w, script, c) + Owns(script, c))
  }

  function Helper(w: World, script: seq<Turn>, c: bool): (h: seq<nat>)
    ensures h != [] ==> Side(w, c).owners == [] && |h| == 1
  {
    if Orphaned(w, script, c) then [Side(w, c).fallback.value] else []
  }

  lemma {:induction false} DistinctIs(s: seq<nat>)
    ensures forall x :: x in Distinct(s) <==> x in s
    ensures forall i, j :: 0 <= i < j < |Distinct(s)| ==> Distinct(s)[i] != Distinct(s)[j]
  {
    if s != [] {
      var r := s[..|s| - 1];
      DistinctIs(r);
      assert s == r + [s[|s| - 1]];
    }
  }

  lemma DistinctNext(s: seq<nat>, x: nat)
    ensures Distinct(s + [x]) == Distinct(s) + if x in s then [] else [x]
  {
    assert (s + [x])[..|s|] == s;
  }

  /** The order of the first times is kept. */
  lemma {:induction false} DistinctKeeps(s: seq<nat>, t: seq<nat>)
    ensures Distinct(s) <= Distinct(s + t)
  {
    if t == [] {
      assert s + t == s;
    } else {
      var r := t[..|t| - 1];
      DistinctKeeps(s, r);
      assert s + t == (s + r) + [t[|t| - 1]];
      DistinctNext(s + r, t[|t| - 1]);
    }
  }

  lemma OwnsNext(script: seq<Turn>, t: Turn, c: bool)
    ensures Owns(script + [t], c) == Owns(script, c) + if t.atClient == c && t.action.Own? then [t.action.owner] else []
  {
    assert (script + [t])[..|script|] == script;
  }

  /** What a turn does to the owners at one end, and to the rounds there */
  lemma OwnersNext(w: World, t: Turn, c: bool)
    ensures
      var e, e' := Side(w, c), Side(After(w, t), c);
      && e'.fallback == e.fallback
      && (|e'.log| == |e.log| ==> e'.log == e.log)
      && (|e'.log| == |e.log| ==>
            e'.owners == e.owners + if t.atClient == c && t.action.Own? && t.action.owner !in e.owners then [t.action.owner] else [])
      && (|e'.log| > |e.log| ==>
            && t.atClient == c && !t.action.Own? && |e'.log| == |e.log| + 1 && e'.log[..|e.log|] == e.log
            && e'.owners == (if e.owners == [] && e.fallback.Some? then [e.fallback.value] else e.owners)
            && e'.log[|e.log|].owners == e'.owners)
      && |e'.log| >= |e.log|
  {
    if t.atClient == c {
      var e := Side(w, c);
      var arriving := if c then w.down else w.up;
      ActOwners(e, t.action, arriving);
    }
  }

  /** Something is delivered: the message in hand is one of data. */
  predicate Opens(e: Endpoint, a: Action) {
    a.Continue? && e.receiver.Opening? && e.receiver.m.Data? && e.receiver.m.kind == 0
  }

  lemma OpenOwners(e: Endpoint, a: Action, arriving: seq<Message>)
    requires Opens(e, a)
    ensures
      var e' := Act(e, a, arriving).endpoint;
      && e'.fallback == e.fallback && e'.owners == (if e.owners == [] && e.fallback.Some? then [e.fallback.value] else e.owners)
      && |e'.log| == |e.log| + 1 && e'.log[..|e.log|] == e.log && e'.log[|e.log|].owners == e'.owners
  {
  }

  /** Nothing of what is told here has changed. */
  predicate Same(e: Endpoint, r: Endpoint) {
    r.fallback == e.fallback && r.log == e.log && r.owners == e.owners
  }

  lemma ConnectedSame(e: Endpoint, ok: bool)
    ensures Same(e, Connected(e, ok).endpoint)
  {
  }

  lemma ShakingSame(e: Endpoint, ok: bool)
    requires e.receiver.Shaking?
    ensures Same(e, Receive(e, ok).endpoint)
  {
  }

  lemma OpeningSame(e: Endpoint, ok: bool)
    requires e.receiver.Opening? && !Opens(e, Continue(ok))
    ensures Same(e, Receive(e, ok).endpoint)
  {
  }

  lemma ReceiveSame(e: Endpoint, ok: bool)
    requires !Opens(e, Continue(ok))
    ensures Same(e, Receive(e, ok).endpoint)
  {
    if e.receiver.Shaking? {
      ShakingSame(e, ok);
    } else if e.receiver.Opening? {
      OpeningSame(e, ok);
    }
  }

  lemma StepSame(e: Endpoint, i: nat, expired: bool, ok: bool)
    requires i < |e.threads|
    ensures Same(e, Step(e, i, expired, ok).endpoint)
  {
  }

  lemma OtherOwners(e: Endpoint, a: Action, arriving: seq<Message>)
    requires !Opens(e, a) && !a.Own?
    ensures Same(e, Act(e, a, arriving).endpoint)
  {
    match a
    case OnConnected(ok) => ConnectedSame(e, ok);
    case Continue(ok) => ReceiveSame(e, ok);
    case ContinueForward(i, expired, ok) =>
      if i < |e.threads| {
        StepSame(e, i, expired, ok);
      }
    case _ =>
  }

  lemma ActOwners(e: Endpoint, a: Action, arriving: seq<Message>)
    ensures
      var e' := Act(e, a, arriving).endpoint;
      && e'.fallback == e.fallback
      && (if Opens(e, a) then
            && e'.owners == (if e.owners == [] && e.fallback.Some? then [e.fallback.value] else e.owners)
            && |e'.log| == |e.log| + 1 && e'.log[..|e.log|] == e.log && e'.log[|e.log|].owners == e'.owners
          else
            && e'.log == e.log
            && e'.owners == e.owners + if a.Own? && a.owner !in e.owners then [a.owner] else [])
  {
    assert e.owners + [] == e.owners;
    if Opens(e, a) {
      OpenOwners(e, a, arriving);
    } else if !a.Own? {
      OtherOwners(e, a, arriving);
    }
  }

  lemma {:induction false} FallbackStays(w: World, script: seq<Turn>, c: bool)
    ensures Side(Trace(w, script), c).fallback == Side(w, c).fallback
  {
    if script != [] {
      FallbackStays(w, script[..|script| - 1], c);
      OwnersNext(Trace(w, script[..|script| - 1]), script[|script| - 1], c);
    }
  }

  lemma NamedFirst(w: World, c: bool)
    requires Distinct(Side(w, c).owners) == Side(w, c).owners
    ensures Names(w, [], c) == Side(w, c).owners
  {
    assert Side(w, c).owners + [] + [] == Side(w, c).owners;
  }

  /** The owners at any time are those that the script names. */
  lemma {:induction false} OwnersAreNamed(w: World, script: seq<Turn>, c: bool)
    requires Distinct(Side(w, c).owners) == Side(w, c).owners
    ensures Side(Trace(w, script), c).owners == Names(w, script, c)
  {
    if script == [] {
      NamedFirst(w, c);
    } else {
      var before, t := script[..|script| - 1], script[|script| - 1];
      OwnersAreNamed(w, before, c);
      FallbackStays(w, before, c);
      OwnersNext(Trace(w, before), t, c);
      NamesNext(w, before, t, c);
      assert script == before + [t];
    }
  }

  /** The fallback helps out when there is nobody else. */
  lemma HelperNext(w: World, before: seq<Turn>, t: Turn, c: bool)
    requires Delivers(w, before, t, c)
    ensures Owns(before + [t], c) == Owns(before, c)
    ensures
      var e, helped := Side(w, c), Helper(w, before, c);
      Helper(w, before + [t], c) ==
        if e.owners + helped + Owns(before, c) == [] && e.fallback.Some? then [e.fallback.value] else helped
  {
    OwnsNext(before, t, c);
    OwnersNext(Trace(w, before), t, c);
    assert Owns(before, c) + [] == Owns(before, c);
    HelperIs(w, before, t, c);
  }

  lemma HelperIs(w: World, before: seq<Turn>, t: Turn, c: bool)
    ensures
      var e := Side(w, c);
      Helper(w, before + [t], c) ==
        if e.fallback.None? || e.owners != [] then []
        else if Orphaned(w, before, c) || (Owns(before, c) == [] && Delivers(w, before, t, c)) then [e.fallback.value]
        else []
  {
    assert (before + [t])[..|before|] == before;
  }

  /** A turn that delivers something: the fallback helps out if nobody is named. */
  lemma NamesDelivered(w: World, before: seq<Turn>, t: Turn, c: bool)
    requires Delivers(w, before, t, c)
    ensures
      var names, e := Names(w, before, c), Side(w, c);
      Names(w, before + [t], c) == if names == [] && e.fallback.Some? then [e.fallback.value] else names
  {
    var e, owns := Side(w, c), Owns(before, c);
    HelperNext(w, before, t, c);
    EmptyOnly(e.owners + Helper(w, before, c) + owns);
    if e.fallback.Some? {
      NamedAll([], [e.fallback.value], []);
    }
  }

  /** Any other turn: nobody but an owner is added. */
  lemma NamesOtherwise(w: World, before: seq<Turn>, t: Turn, c: bool)
    requires !Delivers(w, before, t, c)
    ensures
      var names := Names(w, before, c);
      Names(w, before + [t], c) ==
        names + if t.atClient == c && t.action.Own? && t.action.owner !in names then [t.action.owner] else []
  {
    var helped, owns := Helper(w, before, c), Owns(before, c);
    var all := Side(w, c).owners + helped + owns;
    OwnsNext(before, t, c);
    HelperIs(w, before, t, c);
    DistinctIs(all);
    if t.atClient == c && t.action.Own? {
      Regroup(Side(w, c).owners + helped, owns, [t.action.owner]);
      DistinctNext(all, t.action.owner);
    } else {
      assert owns + [] == owns && Distinct(all) + [] == Distinct(all);
    }
  }

  /** What a turn does to the names */
  lemma NamesNext(w: World, before: seq<Turn>, t: Turn, c: bool)
    ensures
      var names, e := Names(w, before, c), Side(w, c);
      Names(w, before + [t], c) ==
        if Delivers(w, before, t, c) then if names == [] && e.fallback.Some? then [e.fallback.value] else names
        else names + if t.atClient == c && t.action.Own? && t.action.owner !in names then [t.action.owner] else []
  {
    if Delivers(w, before, t, c) {
      NamesDelivered(w, before, t, c);
    } else {
      NamesOtherwise(w, before, t, c);
    }
  }

  lemma EmptyOnly(s: seq<nat>)
    ensures Distinct(s) == [] <==> s == []
  {
    DistinctIs(s);
    if s != [] {
      assert s[0] in Distinct(s);
    }
  }

  /** Round i at one end is that of turn n, and calls those who are named by then. */
  ghost predicate CalledAt(w: World, script: seq<Turn>, c: bool, n: nat, i: nat)
    requires n < |script|
  {
    && |Side(Trace(w, script[..n]), c).log| == i < |Side(Trace(w, script), c).log|
    && Delivers(w, script[..n], script[n], c)
    && Side(Trace(w, script), c).log[i].owners == Names(w, script[..n + 1], c)
  }

  /** The round that the last turn adds */
  lemma LastCalls(w: World, before: seq<Turn>, t: Turn, c: bool)
    requires Distinct(Side(w, c).owners) == Side(w, c).owners
    requires Delivers(w, before, t, c)
    ensures CalledAt(w, before + [t], c, |before|, |Side(Trace(w, before), c).log|)
  {
    var script := before + [t];
    assert script[..|before|] == before && script[..|before| + 1] == script;
    OwnersNext(Trace(w, before), t, c);
    OwnersAreNamed(w, script, c);
  }

  /** A round stays as it is. */
  lemma EarlierCalls(w: World, before: seq<Turn>, t: Turn, c: bool, n: nat, i: nat)
    requires n < |before| && CalledAt(w, before, c, n, i)
    ensures CalledAt(w, before + [t], c, n, i)
  {
    var script, v := before + [t], Trace(w, before);
    assert script[..|before|] == before;
    assert before[..n] == script[..n] && before[..n + 1] == script[..n + 1] && before[n] == script[n];
    OwnersNext(v, t, c);
    assert Side(v, c).log[i] == Side(After(v, t), c).log[..|Side(v, c).log|][i];
  }

  /** Every round calls those who are named when it is delivered. */
  lemma {:induction false} EveryRoundCalls(w: World, script: seq<Turn>, c: bool, i: nat) returns (n: nat)
    requires Distinct(Side(w, c).owners) == Side(w, c).owners
    requires |Side(w, c).log| <= i < |Side(Trace(w, script), c).log|
    ensures n < |script| && CalledAt(w, script, c, n, i)
  {
    var before, t := script[..|script| - 1], script[|script| - 1];
    assert script == before + [t];
    if i < |Side(Trace(w, before), c).log| {
      n := EveryRoundCalls(w, before, c, i);
      EarlierCalls(w, before, t, c, n, i);
    } else {
      OwnersNext(Trace(w, before), t, c);
      n := |before|;
      LastCalls(w, before, t, c);
    }
  }

  /** Those who are called at turn n, in terms of the owners added before it: all of them, each once and in that order, after
      the fallback if it has helped out; if there are none, the fallback; and nobody only if there is none of all these. */
  lemma CallsAll(w: World, script: seq<Turn>, c: bool, n: nat)
    requires n < |script| && Delivers(w, script[..n], script[n], c)
    ensures
      var e, owns, called := Side(w, c), Owns(script[..n], c), Names(w, script[..n + 1], c);
      && (forall x :: x in e.owners || x in owns ==> x in called)
      && (forall i, j :: 0 <= i < j < |called| ==> called[i] != called[j])
      && (e.owners == owns == [] ==> called == if e.fallback.Some? then [e.fallback.value] else [])
      && (called == [] <==> e.owners == owns == [] && e.fallback.None?)
      && (!Orphaned(w, script[..n + 1], c) ==> called == Distinct(e.owners + owns))
      && (Orphaned(w, script[..n + 1], c) ==> e.owners == [] && called == Distinct([e.fallback.value] + owns))
  {
    var e, owns, helped := Side(w, c), Owns(script[..n], c), Helper(w, script[..n + 1], c);
    NamesAt(w, script, c, n);
    NamedAll(e.owners, helped, owns);
  }

  /** The names at turn n, which adds no owner */
  lemma NamesAt(w: World, script: seq<Turn>, c: bool, n: nat)
    requires n < |script| && Delivers(w, script[..n], script[n], c)
    ensures Names(w, script[..n + 1], c) == Distinct(Side(w, c).owners + Helper(w, script[..n + 1], c) + Owns(script[..n], c))
    ensures Side(w, c).owners == Owns(script[..n], c) == [] ==>
              (Helper(w, script[..n + 1], c) == [] <==> Side(w, c).fallback.None?)
  {
    var before := script[..n];
    assert script[..n + 1] == before + [script[n]] && script[..n + 1][..n] == before;
    OwnersNext(Trace(w, before), script[n], c);
    OwnsNext(before, script[n], c);
    assert Owns(before, c) + [] == Owns(before, c);
  }

  lemma NamedAll(owners: seq<nat>, helped: seq<nat>, owns: seq<nat>)
    requires helped != [] ==> owners == [] && |helped| == 1
    ensures
      var called := Distinct(owners + helped + owns);
      && (forall x :: x in owners || x in owns ==> x in called)
      && (forall i, j :: 0 <= i < j < |called| ==> called[i] != called[j])
      && (called == [] <==> owners == helped == owns == [])
      && (helped == [] ==> called == Distinct(owners + owns))
      && (helped != [] ==> called == Distinct(helped + owns) && (owns == [] ==> called == helped))
  {
    var all := owners + helped + owns;
    DistinctIs(all);
    EmptyOnly(all);
    if helped == [] {
      assert owners + [] == owners;
    } else {
      assert [] + helped == helped;
      if owns == [] {
        assert all == [] + [helped[0]];
        DistinctNext([], helped[0]);
      }
    }
  }

  /** A fallback that has helped out is called ever after. */
  lemma {:induction false} FallbackIsCalled(w: World, script: seq<Turn>, more: seq<Turn>, c: bool)
    requires Orphaned(w, script, c)
    ensures Orphaned(w, script + more, c) && Side(w, c).fallback.value in Names(w, script + more, c)
    decreases |more|
  {
    var e := Side(w, c);
    if more == [] {
      assert script + more == script;
    } else {
      var before := more[..|more| - 1];
      FallbackIsCalled(w, script, before, c);
      assert (script + more)[..|script + more| - 1] == script + before;
    }
    DistinctIs(e.owners + [e.fallback.value] + Owns(script + more, c));
  }

  /** Nobody is an owner twice. */
  predicate Once(w: World) {
    Distinct(w.client.owners) == w.client.owners && Distinct(w.server.owners) == w.server.owners
  }

  /** Round i at one end calls those who are named at its turn. */
  ghost predicate RoundCalls(w: World, script: seq<Turn>, c: bool, i: nat) {
    exists n: nat | n < |script| :: CalledAt(w, script, c, n, i)
  }

  /** All rounds that a script adds do so, and the owners are those named at the end. */
  ghost predicate AllCalled(w: World, script: seq<Turn>, c: bool) {
    && Side(Trace(w, script), c).owners == Names(w, script, c)
    && forall i: nat :: |Side(w, c).log| <= i < |Side(Trace(w, script), c).log| ==> RoundCalls(w, script, c, i)
  }

  lemma EveryoneIsCalled(w: World, script: seq<Turn>, c: bool)
    requires Once(w)
    ensures AllCalled(w, script, c)
  {
    OwnersAreNamed(w, script, c);
    forall i: nat | |Side(w, c).log| <= i < |Side(Trace(w, script), c).log|
      ensures RoundCalls(w, script, c, i)
    {
      var n := EveryRoundCalls(w, script, c, i);
    }
  }
}
