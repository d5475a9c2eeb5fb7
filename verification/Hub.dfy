/** The gateway's connection hub: which connection answers for a user on a
    platform, over every interleaving of connects, exits and unregisters. */
module Hub {

  type User = string

  datatype Platform = Desktop | Mobile

  /** Connections are numbered in the order in which they register. */
  type Conn = nat

  type Clients = map<Platform, Conn>

  type Table = map<User, Clients>

  // ----- the table operations ----------------------------------------------

  function Registered(hub: Table, u: User, p: Platform, c: Conn): Table
  {
    hub[u := (if u in hub then hub[u] else map[])[p := c]]
  }

  /** First half of `unregister`, under the entry's lock: with exactly one client
      left only a flag is raised, otherwise the platform goes. */
  predicate OnlyOneLeft(hub: Table, u: User)
  {
    u in hub && |hub[u]| == 1
  }

  function Checked(hub: Table, u: User, p: Platform): Table
  {
    if u in hub && !OnlyOneLeft(hub, u) then hub[u := hub[u] - {p}] else hub
  }

  function Unregistered(hub: Table, u: User, p: Platform): Table
  {
    if OnlyOneLeft(hub, u) then Checked(hub, u, p) - {u} else Checked(hub, u, p)
  }

  /** What unregistering is meant to do: drop this platform, and the user with
      the last one. */
  function WithoutEntry(hub: Table, u: User, p: Platform): Table
  {
    if u !in hub then hub
    else if hub[u] - {p} == map[] then hub - {u}
    else hub[u := hub[u] - {p}]
  }

  predicate Holds(hub: Table, u: User, p: Platform, c: Conn)
  {
    u in hub && p in hub[u] && hub[u][p] == c
  }

  predicate NoEmptyEntry(hub: Table)
  {
    forall u :: u in hub ==> hub[u] != map[]
  }

  lemma SizeOne(m: Clients, p: Platform)
    requires p in m
    ensures |m| == 1 <==> m - {p} == map[]
  {
    assert m.Keys == (m - {p}).Keys + {p};
  }

  /** The `len == 1` shortcut is removal by platform exactly when the one client
      left is the platform's own. */
  lemma ShortcutExactIff(hub: Table, u: User, p: Platform)
    requires NoEmptyEntry(hub)
    ensures Unregistered(hub, u, p) == WithoutEntry(hub, u, p)
       <==> (OnlyOneLeft(hub, u) ==> p in hub[u])
  {
    if u in hub {
      if p in hub[u] {
        SizeOne(hub[u], p);
      } else {
        assert hub[u] - {p} == hub[u];
        assert u in WithoutEntry(hub, u, p);
      }
    }
  }

  /** The entry that the check half of `c`'s unregister removes, if any, is `c`'s. */
  predicate CheckHitsOwn(hub: Table, u: User, p: Platform, c: Conn)
  {
    u in hub && !OnlyOneLeft(hub, u) && p in hub[u] ==> hub[u][p] == c
  }

  /** All that the removal half takes away is `c`'s. */
  predicate RemoveHitsOwn(hub: Table, u: User, c: Conn)
  {
    u in hub ==> forall q :: q in hub[u] ==> hub[u][q] == c
  }

  lemma HoldsAfterCheck(hub: Table, u: User, p: Platform, v: User, q: Platform, d: Conn)
    ensures Holds(Checked(hub, u, p), v, q, d) <==> Holds(hub, v, q, d) && !(v == u && q == p && !OnlyOneLeft(hub, u))
  {
  }

  lemma HoldsAfterRemove(hub: Table, u: User, v: User, q: Platform, d: Conn)
    ensures Holds(hub - {u}, v, q, d) <==> Holds(hub, v, q, d) && v != u
  {
  }

  /** Each half of an unregister on behalf of `c` costs no other connection its
      entry exactly when what it hits is `c`'s own. */
  lemma HalvesHarmlessIff(hub: Table, u: User, p: Platform, c: Conn)
    ensures (forall v, q, d :: d != c && Holds(hub, v, q, d) ==> Holds(Checked(hub, u, p), v, q, d))
       <==> CheckHitsOwn(hub, u, p, c)
    ensures (forall v, q, d :: d != c && Holds(hub, v, q, d) ==> Holds(hub - {u}, v, q, d))
       <==> RemoveHitsOwn(hub, u, c)
  {
    forall v, q, d
      ensures Holds(Checked(hub, u, p), v, q, d) <==> Holds(hub, v, q, d) && !(v == u && q == p && !OnlyOneLeft(hub, u))
      ensures Holds(hub - {u}, v, q, d) <==> Holds(hub, v, q, d) && v != u
    {
      HoldsAfterCheck(hub, u, p, v, q, d);
      HoldsAfterRemove(hub, u, v, q, d);
    }
    if u in hub {
      assert forall q :: q in hub[u] ==> Holds(hub, u, q, hub[u][q]);
    }
  }

  lemma AtMostTwo(m: Clients)
    ensures |m| <= 2
  {
    var all := {Desktop, Mobile};
    assert m.Keys <= all by {
      forall p | p in m ensures p in all { assert p == Desktop || p == Mobile; }
    }
    SubsetSize(m.Keys, all);
    assert |m| == |m.Keys|;
  }

  lemma SubsetSize(a: set<Platform>, b: set<Platform>)
    requires a <= b
    ensures |a| <= |b|
  {
    assert b == a + (b - a);
  }

  lemma OneKey(m: Clients, p: Platform)
    requires |m| == 1 && p in m
    ensures m.Keys == {p}
  {
    assert m.Keys == {p} + (m.Keys - {p});
  }

  class Manager {
    var hub: Table

    constructor ()
      ensures hub == map[]
    {
      hub := map[];
    }

    method Register(id: User, platform: Platform, client: Conn)
      modifies this`hub
      ensures hub == Registered(old(hub), id, platform, client)
      ensures Holds(hub, id, platform, client)
      ensures forall v, q, d :: d != client ==>
        (Holds(hub, v, q, d) <==> Holds(old(hub), v, q, d) && !(v == id && q == platform))
    {
      if id !in hub {
        hub := hub[id := map[]];
      }
      var clients: Clients := hub[id];
      hub := hub[id := clients[platform := client]];
    }

    method Unregister(id: User, platform: Platform)
      modifies this`hub
      ensures hub == Unregistered(old(hub), id, platform)
      ensures forall v, q, d :: v != id || (id in old(hub) && |old(hub)[id]| != 1 && q != platform) ==>
        (Holds(hub, v, q, d) <==> Holds(old(hub), v, q, d))
      ensures id in hub ==> platform !in hub[id]
    {
      var flag := false;
      if id in hub {
        if |hub[id]| == 1 {
          flag := true;
        } else {
          hub := hub[id := hub[id] - {platform}];
        }
      }
      if flag {
        hub := hub - {id};
      }
    }

    /** Which connections a message for these clients is written to. */
    method SendMsgToClients(clients: Clients) returns (sent: seq<Conn>)
      ensures |sent| == |clients|
      ensures clients.Keys == {} ==> sent == []
      ensures forall p :: p in clients.Keys ==> clients[p] in sent
      ensures forall c :: c in sent ==> exists p :: p in clients.Keys && clients[p] == c
    {
      sent := [];
      AtMostTwo(clients);
      if |clients| == 1 {
        var first :| first in clients.Keys;
        OneKey(clients, first);
        sent := [clients[first]];
      } else if |clients| == 2 {
        var first :| first in clients.Keys;
        ghost var rest := clients - {first};
        assert clients.Keys == rest.Keys + {first};
        assert |rest.Keys| == 1;
        var second :| second in clients.Keys && second != first;
        OneKey(rest, second);
        sent := [clients[first], clients[second]];
      }
    }
  }

  // ----- connection lifecycles ---------------------------------------------

  /** Live until its tasks end; Exiting or Flagged while its unregister is under
      way; Gone afterwards, or at once after a knock-off. */
  datatype Status = Live | Exiting | Flagged | Gone

  datatype Info = Info(user: User, platform: Platform, status: Status)

  datatype State = State(hub: Table, conns: seq<Info>)

  datatype Step =
    | Connect(user: User, platform: Platform)
    | KnockOff(conn: Conn)
    | Exit(conn: Conn)
    | Check(conn: Conn)
    | Remove(conn: Conn)

  predicate HasEntry(s: State, c: Conn)
    requires c < |s.conns|
  {
    Holds(s.hub, s.conns[c].user, s.conns[c].platform, c)
  }

  /** What the code allows. A knock-off is the closing of the notify channel,
      whose sender lives in the hub entry. */
  predicate Possible(s: State, step: Step)
  {
    match step
    case Connect(_, _) => true
    case KnockOff(c) => c < |s.conns| && s.conns[c].status.Live? && !HasEntry(s, c)
    case Exit(c) => c < |s.conns| && s.conns[c].status.Live?
    case Check(c) => c < |s.conns| && s.conns[c].status.Exiting?
    case Remove(c) => c < |s.conns| && s.conns[c].status.Flagged?
  }

  function Next(s: State, step: Step): State
    requires Possible(s, step)
  {
    match step
    case Connect(u, p) => State(Registered(s.hub, u, p, |s.conns|), s.conns + [Info(u, p, Live)])
    case KnockOff(c) => s.(conns := s.conns[c := s.conns[c].(status := Gone)])
    case Exit(c) => s.(conns := s.conns[c := s.conns[c].(status := Exiting)])
    case Check(c) =>
      var i := s.conns[c];
      var status := if OnlyOneLeft(s.hub, i.user) then Flagged else Gone;
      State(Checked(s.hub, i.user, i.platform), s.conns[c := i.(status := status)])
    case Remove(c) => State(s.hub - {s.conns[c].user}, s.conns[c := s.conns[c].(status := Gone)])
  }

  /** The two run conditions: a replaced connection leaves by knock-off, and no
      connect of a user falls between an exit of that user and its unregister. */
  predicate Disciplined(s: State, step: Step)
  {
    match step
    case Connect(u, _) => forall c :: 0 <= c < |s.conns| && s.conns[c].user == u ==>
                            !s.conns[c].status.Exiting? && !s.conns[c].status.Flagged?
    case Exit(c) => c < |s.conns| && HasEntry(s, c)
    case _ => true
  }

  /** No later connection registered for the same user and platform. */
  predicate Newest(conns: seq<Info>, c: Conn)
    requires c < |conns|
  {
    forall d :: c < d < |conns| ==> !(conns[d].user == conns[c].user && conns[d].platform == conns[c].platform)
  }

  /** A connection has an entry exactly while it is the newest of its user and
      platform and not gone. */
  ghost predicate ConnExact(s: State, c: Conn)
    requires c < |s.conns|
  {
    HasEntry(s, c) <==> !s.conns[c].status.Gone? && Newest(s.conns, c)
  }

  /** A user's entry is not empty and names connections of that user and platform. */
  ghost predicate EntryOk(s: State, u: User)
    requires u in s.hub
  {
    && s.hub[u] != map[]
    && forall p :: p in s.hub[u] ==>
      s.hub[u][p] < |s.conns| && s.conns[s.hub[u][p]].user == u && s.conns[s.hub[u][p]].platform == p
  }

  ghost predicate Exact(s: State)
  {
    && (forall c :: 0 <= c < |s.conns| ==> ConnExact(s, c))
    && (forall u :: u in s.hub ==> EntryOk(s, u))
  }

  /** The step takes away no entry but its own connection's. */
  predicate HitsOwn(s: State, step: Step)
    requires Possible(s, step)
  {
    match step
    case Check(c) => CheckHitsOwn(s.hub, s.conns[c].user, s.conns[c].platform, c)
    case Remove(c) => RemoveHitsOwn(s.hub, s.conns[c].user, c)
    case _ => true
  }

  lemma ConnectNewest(conns: seq<Info>, i: Info, d: Conn)
    requires d < |conns|
    ensures Newest(conns + [i], d) <==>
      Newest(conns, d) && !(conns[d].user == i.user && conns[d].platform == i.platform)
    ensures Newest(conns + [i], |conns|)
  {
    var conns' := conns + [i];
    assert forall e :: 0 <= e < |conns| ==> conns'[e] == conns[e];
    assert conns'[|conns|] == i;
  }

  lemma FirstNewest(i: Info)
    ensures Newest([i], 0)
  {
  }

  lemma SameNewest(conns: seq<Info>, c: Conn, i: Info, d: Conn)
    requires c < |conns| && d < |conns| && i.user == conns[c].user && i.platform == conns[c].platform
    ensures Newest(conns[c := i], d) <==> Newest(conns, d)
  {
    var conns' := conns[c := i];
    assert forall e :: 0 <= e < |conns| ==> conns'[e].user == conns[e].user && conns'[e].platform == conns[e].platform;
  }

  /** Registering takes one entry, from whoever held it, and touches no other. */
  lemma ConnectHolds(hub: Table, u: User, p: Platform, c: Conn, v: User, q: Platform, d: Conn)
    requires c != d
    ensures Holds(Registered(hub, u, p, c), v, q, d) <==> Holds(hub, v, q, d) && !(v == u && q == p)
    ensures Holds(Registered(hub, u, p, c), u, p, c)
    ensures v != u ==> (OnlyOneLeft(Registered(hub, u, p, c), v) <==> OnlyOneLeft(hub, v))
  {
  }

  lemma ConnectExact(s: State, u: User, p: Platform, d: Conn)
    requires Exact(s) && d <= |s.conns|
    ensures ConnExact(Next(s, Connect(u, p)), d)
  {
    hide Newest, Registered, Holds;
    var n, i := |s.conns|, Info(u, p, Live);
    if d < n {
      assert ConnExact(s, d);
      ConnectNewest(s.conns, i, d);
      ConnectHolds(s.hub, u, p, n, s.conns[d].user, s.conns[d].platform, d);
    } else {
      if n == 0 { FirstNewest(i); assert s.conns + [i] == [i]; } else { ConnectNewest(s.conns, i, 0); }
      ConnectHolds(s.hub, u, p, n, u, p, n + 1);
    }
  }

  /** Each step changes one status at most and keeps users and platforms. */
  lemma StepFrame(s: State, step: Step)
    requires Possible(s, step) && !step.Connect?
    ensures var s', c := Next(s, step), step.conn;
      && s'.conns == s.conns[c := s.conns[c].(status := s'.conns[c].status)]
      && s'.hub == (match step
                    case Check(_) => Checked(s.hub, s.conns[c].user, s.conns[c].platform)
                    case Remove(_) => s.hub - {s.conns[c].user}
                    case _ => s.hub)
      && (s'.conns[c].status.Gone? <==>
        step.KnockOff? || step.Remove? || (step.Check? && !OnlyOneLeft(s.hub, s.conns[c].user)))
  {
  }

  lemma StepExact(s: State, step: Step, d: Conn)
    requires Exact(s) && Possible(s, step) && HitsOwn(s, step) && !step.Connect? && d < |s.conns|
    ensures ConnExact(Next(s, step), d)
  {
    StepFrame(s, step);
    hide Next, Newest, Checked, OnlyOneLeft;
    var s', c := Next(s, step), step.conn;
    var i, j := s.conns[c], s.conns[d];
    assert ConnExact(s, c) && ConnExact(s, d);
    SameNewest(s.conns, c, s'.conns[c], d);
    if step.Check? {
      HoldsAfterCheck(s.hub, i.user, i.platform, j.user, j.platform, d);
    } else if step.Remove? {
      HoldsAfterRemove(s.hub, i.user, j.user, j.platform, d);
    }
  }

  /** A half that hits another connection's entry leaves that one without it. */
  lemma StepInexact(s: State, step: Step)
    requires Exact(s) && Possible(s, step) && !HitsOwn(s, step)
    ensures exists d :: 0 <= d < |s.conns| && |Next(s, step).conns| == |s.conns| && !ConnExact(Next(s, step), d)
  {
    StepFrame(s, step);
    hide Next, Newest, Checked;
    var s', c := Next(s, step), step.conn;
    var i := s.conns[c];
    assert EntryOk(s, i.user);
    var q := i.platform;
    if step.Remove? { q :| q in s.hub[i.user] && s.hub[i.user][q] != c; }
    var d := s.hub[i.user][q];
    assert ConnExact(s, d);
    SameNewest(s.conns, c, s'.conns[c], d);
    HoldsAfterCheck(s.hub, i.user, i.platform, i.user, q, d);
    HoldsAfterRemove(s.hub, i.user, i.user, q, d);
    assert !ConnExact(s', d);
  }

  lemma ConnectEntries(s: State, u: User, p: Platform, v: User)
    requires Exact(s) && v in Next(s, Connect(u, p)).hub
    ensures EntryOk(Next(s, Connect(u, p)), v)
  {
    hide ConnExact;
    var s' := Next(s, Connect(u, p));
    if v in s.hub { assert EntryOk(s, v); }
    assert forall c :: 0 <= c < |s.conns| ==> s'.conns[c] == s.conns[c];
    if v == u { assert p in s'.hub[u]; }
  }

  /** A step that only takes clients out of an entry, never the last one, keeps it. */
  lemma ShrunkEntry(s: State, s': State, v: User)
    requires Shrinks(s.hub, s'.hub, v) && EntryOk(s, v) && |s'.conns| == |s.conns|
    requires forall c :: 0 <= c < |s.conns| ==>
      s'.conns[c].user == s.conns[c].user && s'.conns[c].platform == s.conns[c].platform
    ensures EntryOk(s', v)
  {
  }

  /** `after` has taken clients out of an entry of `hub`, but not the last one. */
  ghost predicate Shrinks(hub: Table, after: Table, v: User)
  {
    && v in hub && v in after && after[v] != map[]
    && forall q :: q in after[v] ==> q in hub[v] && after[v][q] == hub[v][q]
  }

  lemma CheckShrinks(hub: Table, u: User, p: Platform, v: User)
    requires v in Checked(hub, u, p) && (v in hub ==> hub[v] != map[])
    ensures Shrinks(hub, Checked(hub, u, p), v)
  {
    if v == u {
      if p in hub[v] { SizeOne(hub[v], p); } else { assert hub[v] - {p} == hub[v]; }
    }
  }

  lemma StepShrinks(s: State, step: Step, v: User)
    requires Possible(s, step) && !step.Connect? && v in Next(s, step).hub && (v in s.hub ==> s.hub[v] != map[])
    ensures Shrinks(s.hub, Next(s, step).hub, v)
  {
    if step.Check? {
      hide Checked, Shrinks, OnlyOneLeft;
      CheckShrinks(s.hub, s.conns[step.conn].user, s.conns[step.conn].platform, v);
    }
  }

  lemma StepEntries(s: State, step: Step, v: User)
    requires Exact(s) && Possible(s, step) && !step.Connect? && v in Next(s, step).hub
    ensures EntryOk(Next(s, step), v)
  {
    hide ConnExact, Next, Possible, EntryOk;
    ExactEntry(s, v);
    StepNames(s, step);
    StepShrinks(s, step, v);
    assert v in s.hub;
    ShrunkEntry(s, Next(s, step), v);
  }

  lemma ExactEntry(s: State, v: User)
    requires Exact(s)
    ensures v in s.hub ==> EntryOk(s, v) && s.hub[v] != map[]
  {
    hide ConnExact;
  }

  lemma StepNames(s: State, step: Step)
    requires Possible(s, step) && !step.Connect?
    ensures var s' := Next(s, step);
      && |s'.conns| == |s.conns|
      && forall c :: 0 <= c < |s.conns| ==>
        s'.conns[c].user == s.conns[c].user && s'.conns[c].platform == s.conns[c].platform
  {
    hide Checked, OnlyOneLeft, HasEntry;
  }

  /** From an exact hub a step leads to an exact hub exactly when it hits no entry
      but its own. */
  lemma ExactStepIff(s: State, step: Step)
    requires Exact(s) && Possible(s, step)
    ensures Exact(Next(s, step)) <==> HitsOwn(s, step)
  {
    hide ConnExact, EntryOk;
    var s' := Next(s, step);
    if HitsOwn(s, step) {
      forall d | 0 <= d < |s'.conns| ensures ConnExact(s', d) {
        match step
        case Connect(u, p) => ConnectExact(s, u, p, d);
        case _ => StepExact(s, step, d);
      }
      forall v | v in s'.hub ensures EntryOk(s', v) {
        match step
        case Connect(u, p) => ConnectEntries(s, u, p, v);
        case _ => StepEntries(s, step, v);
      }
    } else {
      StepInexact(s, step);
    }
  }

  // ----- a discipline that suffices ----------------------------------------

  /** A leaving connection still has its entry, alone once it is flagged. */
  ghost predicate LeaveOk(s: State, c: Conn)
    requires c < |s.conns|
  {
    var i := s.conns[c];
    && (i.status.Exiting? || i.status.Flagged? ==> HasEntry(s, c))
    && (i.status.Flagged? ==> OnlyOneLeft(s.hub, i.user))
  }

  ghost predicate Inv(s: State)
  {
    Exact(s) && forall c :: 0 <= c < |s.conns| ==> LeaveOk(s, c)
  }

  /** Two connections with entries under one user: different platforms, and so
      more than one client left. */
  lemma TwoEntries(s: State, c: Conn, d: Conn)
    requires c < |s.conns| && d < |s.conns| && c != d && HasEntry(s, c) && HasEntry(s, d)
    requires s.conns[c].user == s.conns[d].user
    ensures s.conns[c].platform != s.conns[d].platform && !OnlyOneLeft(s.hub, s.conns[c].user)
  {
    var m := s.hub[s.conns[c].user];
    assert s.conns[c].platform in m && s.conns[d].platform in m;
    if |m| == 1 {
      OneKey(m, s.conns[c].platform);
      assert false;
    }
  }

  lemma InvHitsOwn(s: State, step: Step)
    requires Inv(s) && Possible(s, step)
    ensures HitsOwn(s, step)
  {
    if step.Check? || step.Remove? {
      assert LeaveOk(s, step.conn);
      if step.Remove? { OneKey(s.hub[s.conns[step.conn].user], s.conns[step.conn].platform); }
    }
  }

  lemma ConnectLeaveOk(s: State, u: User, p: Platform, d: Conn)
    requires Inv(s) && Disciplined(s, Connect(u, p)) && d <= |s.conns|
    ensures LeaveOk(Next(s, Connect(u, p)), d)
  {
    hide Registered, Holds, OnlyOneLeft, Exact;
    if d < |s.conns| {
      assert LeaveOk(s, d);
      ConnectHolds(s.hub, u, p, |s.conns|, s.conns[d].user, s.conns[d].platform, d);
    }
  }

  lemma StepLeaveOk(s: State, step: Step, d: Conn)
    requires Inv(s) && Possible(s, step) && Disciplined(s, step) && !step.Connect? && d < |s.conns|
    ensures LeaveOk(Next(s, step), d)
  {
    hide Exact;
    var c := step.conn;
    assert LeaveOk(s, c) && LeaveOk(s, d);
    if c != d && s.conns[c].user == s.conns[d].user && HasEntry(s, c) && HasEntry(s, d) {
      TwoEntries(s, c, d);
    }
  }

  /** Under the discipline every step keeps the invariant, so it hits its own. */
  lemma StepKeepsInv(s: State, step: Step)
    requires Inv(s) && Possible(s, step) && Disciplined(s, step)
    ensures Inv(Next(s, step))
  {
    hide Exact, LeaveOk, HitsOwn;
    var s' := Next(s, step);
    InvHitsOwn(s, step);
    ExactStepIff(s, step);
    forall d | 0 <= d < |s'.conns| ensures LeaveOk(s', d) {
      match step
      case Connect(u, p) => ConnectLeaveOk(s, u, p, d);
      case _ => StepLeaveOk(s, step, d);
    }
  }

  // ----- runs --------------------------------------------------------------

  const START := State(map[], [])

  ghost predicate PossibleRun(s: State, run: seq<Step>)
    decreases |run|
  {
    run == [] || (Possible(s, run[0]) && PossibleRun(Next(s, run[0]), run[1..]))
  }

  function After(s: State, run: seq<Step>): State
    requires PossibleRun(s, run)
    decreases |run|
  {
    if run == [] then s else After(Next(s, run[0]), run[1..])
  }

  /** The hub is exact at the start, at the end and after every step between. */
  ghost predicate ExactThroughout(s: State, run: seq<Step>)
    requires PossibleRun(s, run)
    decreases |run|
  {
    Exact(s) && (run == [] || ExactThroughout(Next(s, run[0]), run[1..]))
  }

  /** Every check and every removal of the run hits its own connection's entry. */
  ghost predicate HitsOwnThroughout(s: State, run: seq<Step>)
    requires PossibleRun(s, run)
    decreases |run|
  {
    run == [] || (HitsOwn(s, run[0]) && HitsOwnThroughout(Next(s, run[0]), run[1..]))
  }

  lemma {:induction false} RunExactIff(s: State, run: seq<Step>)
    requires Exact(s) && PossibleRun(s, run)
    ensures ExactThroughout(s, run) <==> HitsOwnThroughout(s, run)
    decreases |run|
  {
    hide Exact, HitsOwn;
    if run != [] {
      ExactStepIff(s, run[0]);
      if HitsOwn(s, run[0]) { RunExactIff(Next(s, run[0]), run[1..]); }
    }
  }

  /** Over every run that the code allows: the hub is exact all along if and only
      if no unregister half ever hits another connection's entry. */
  lemma HubExactIff(run: seq<Step>)
    requires PossibleRun(START, run)
    ensures ExactThroughout(START, run) <==> HitsOwnThroughout(START, run)
  {
    RunExactIff(START, run);
  }

  ghost predicate DisciplinedRun(s: State, run: seq<Step>)
    requires PossibleRun(s, run)
    decreases |run|
  {
    run == [] || (Disciplined(s, run[0]) && DisciplinedRun(Next(s, run[0]), run[1..]))
  }

  lemma {:induction false} RunKeepsInv(s: State, run: seq<Step>)
    requires Inv(s) && PossibleRun(s, run) && DisciplinedRun(s, run)
    ensures Inv(After(s, run)) && HitsOwnThroughout(s, run)
    decreases |run|
  {
    hide Inv;
    if run != [] {
      InvHitsOwn(s, run[0]);
      StepKeepsInv(s, run[0]);
      RunKeepsInv(Next(s, run[0]), run[1..]);
    }
  }

  /** The discipline implies the condition of `HubExactIff`, and after every
      disciplined run: an entry is the newest connection of its user
      and platform and not yet gone, and conversely; no user has an empty entry;
      and the next unregister is removal by platform. */
  lemma HubIsExact(run: seq<Step>)
    requires PossibleRun(START, run) && DisciplinedRun(START, run)
    ensures HitsOwnThroughout(START, run) && ExactThroughout(START, run)
    ensures var s := After(START, run);
      && (forall u, p, c: Conn :: Holds(s.hub, u, p, c) <==>
            c < |s.conns| && s.conns[c].user == u && s.conns[c].platform == p &&
            !s.conns[c].status.Gone? && Newest(s.conns, c))
      && NoEmptyEntry(s.hub)
      && (forall c :: 0 <= c < |s.conns| && s.conns[c].status.Exiting? ==>
            Unregistered(s.hub, s.conns[c].user, s.conns[c].platform)
              == WithoutEntry(s.hub, s.conns[c].user, s.conns[c].platform))
  {
    RunKeepsInv(START, run);
    HubExactIff(run);
    var s := After(START, run);
    forall u, p, c: Conn
      ensures Holds(s.hub, u, p, c) <==>
              c < |s.conns| && s.conns[c].user == u && s.conns[c].platform == p &&
              !s.conns[c].status.Gone? && Newest(s.conns, c)
    {
      if u in s.hub { assert EntryOk(s, u); }
      if c < |s.conns| { assert ConnExact(s, c); }
    }
    assert NoEmptyEntry(s.hub) by { assert forall u :: u in s.hub ==> EntryOk(s, u); }
    forall c | 0 <= c < |s.conns| && s.conns[c].status.Exiting?
      ensures Unregistered(s.hub, s.conns[c].user, s.conns[c].platform)
           == WithoutEntry(s.hub, s.conns[c].user, s.conns[c].platform)
    {
      assert LeaveOk(s, c);
      ShortcutExactIff(s.hub, s.conns[c].user, s.conns[c].platform);
    }
  }

  // ----- both conditions are needed ----------------------------------------

  /** `c` is connected and newest, yet nothing sent to its user can reach it. */
  predicate Lost(s: State, c: Conn)
  {
    c < |s.conns| && s.conns[c].status.Live? && Newest(s.conns, c) && !HasEntry(s, c)
  }

  lemma ReplaceEntry(u: User)
    ensures Registered(map[u := map[Desktop := 0]], u, Desktop, 1) == map[u := map[Desktop := 1]]
  {
    var before: Clients := map[Desktop := 0];
    assert before[Desktop := 1] == map[Desktop := 1];
    var hub: Table := map[u := before];
    assert Registered(hub, u, Desktop, 1) == hub[u := map[Desktop := 1]];
  }

  /** A reconnect that slips in between an exit and its unregister is lost. */
  lemma ConnectDuringUnregisterIsLost(u: User)
    ensures var run := [Connect(u, Desktop), Exit(0), Connect(u, Desktop), Check(0), Remove(0)];
      PossibleRun(START, run) && Lost(After(START, run), 1)
  {
    var d0: Table := map[u := map[Desktop := 0]];
    var d1: Table := map[u := map[Desktop := 1]];
    ReplaceEntry(u);
    Trace5([Connect(u, Desktop), Exit(0), Connect(u, Desktop), Check(0), Remove(0)],
           State(d0, [Info(u, Desktop, Live)]), State(d0, [Info(u, Desktop, Exiting)]),
           State(d1, [Info(u, Desktop, Exiting), Info(u, Desktop, Live)]),
           State(d1, [Info(u, Desktop, Flagged), Info(u, Desktop, Live)]),
           State(map[], [Info(u, Desktop, Gone), Info(u, Desktop, Live)]));
  }

  /** So is a connect on the other platform, between the check and the removal. */
  lemma OtherPlatformDuringUnregisterIsLost(u: User)
    ensures var run := [Connect(u, Desktop), Exit(0), Check(0), Connect(u, Mobile), Remove(0)];
      PossibleRun(START, run) && Lost(After(START, run), 1)
  {
    var d0: Table := map[u := map[Desktop := 0]];
    var both: Table := map[u := map[Desktop := 0, Mobile := 1]];
    assert Registered(d0, u, Mobile, 1) == both;
    Trace5([Connect(u, Desktop), Exit(0), Check(0), Connect(u, Mobile), Remove(0)],
           State(d0, [Info(u, Desktop, Live)]), State(d0, [Info(u, Desktop, Exiting)]),
           State(d0, [Info(u, Desktop, Flagged)]),
           State(both, [Info(u, Desktop, Flagged), Info(u, Mobile, Live)]),
           State(map[], [Info(u, Desktop, Gone), Info(u, Mobile, Live)]));
  }

  /** A replaced connection that reports a disconnect instead of the knock-off
      takes its replacement's entry with it. */
  lemma ReplacedExitIsLost(u: User)
    ensures var run := [Connect(u, Desktop), Connect(u, Desktop), Exit(0), Check(0), Remove(0)];
      PossibleRun(START, run) && Lost(After(START, run), 1)
  {
    var d1: Table := map[u := map[Desktop := 1]];
    ReplaceEntry(u);
    Trace5([Connect(u, Desktop), Connect(u, Desktop), Exit(0), Check(0), Remove(0)],
           State(map[u := map[Desktop := 0]], [Info(u, Desktop, Live)]),
           State(d1, [Info(u, Desktop, Live), Info(u, Desktop, Live)]),
           State(d1, [Info(u, Desktop, Exiting), Info(u, Desktop, Live)]),
           State(d1, [Info(u, Desktop, Flagged), Info(u, Desktop, Live)]),
           State(map[], [Info(u, Desktop, Gone), Info(u, Desktop, Live)]));
  }

  lemma Trace5(run: seq<Step>, a: State, b: State, c: State, d: State, e: State)
    requires |run| == 5
    requires Possible(START, run[0]) && Next(START, run[0]) == a
    requires Possible(a, run[1]) && Next(a, run[1]) == b
    requires Possible(b, run[2]) && Next(b, run[2]) == c
    requires Possible(c, run[3]) && Next(c, run[3]) == d
    requires Possible(d, run[4]) && Next(d, run[4]) == e
    ensures PossibleRun(START, run) && After(START, run) == e
  {
    assert PossibleRun(e, []) && After(e, []) == e;
    assert run[4..][1..] == [] && run[3..][1..] == run[4..] && run[2..][1..] == run[3..] && run[1..][1..] == run[2..];
    assert PossibleRun(d, run[4..]) && After(d, run[4..]) == e;
    assert PossibleRun(c, run[3..]) && After(c, run[3..]) == e;
    assert PossibleRun(b, run[2..]) && After(b, run[2..]) == e;
    assert PossibleRun(a, run[1..]) && After(a, run[1..]) == e;
  }
}
