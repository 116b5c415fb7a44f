/**
 * The session registry: an ordered list of BRD sessions, newest first, and
 * the id of the active one (or none). Each action is a pure transition from
 * one registry value to the next; the clock reading an action would take
 * from `new Date()` is passed in as `now`. Saving the registry to browser
 * storage is not part of this module.
 */
module SessionStore {
  import opened Prelude

  datatype Status = Active | Complete | Draft

  /**
   * One BRD session. The three counters are optional, display-only values:
   * the registry stores what it is given and never computes them.
   */
  datatype Session = Session(
    id: string,
    name: string,
    description: string,
    status: Status,
    createdAt: Time,
    sections: Option<int>,
    signals: Option<int>,
    words: Option<int>)

  /** What a caller hands to `addSession`: a session without its creation time. */
  datatype NewSession = NewSession(
    id: string,
    name: string,
    description: string,
    status: Status,
    sections: Option<int>,
    signals: Option<int>,
    words: Option<int>)

  /**
   * What a caller hands to `updateSession`: any fields but the id, each either
   * present (`Some`) or absent (`None`).
   */
  datatype Patch = Patch(
    name: Option<string>,
    description: Option<string>,
    status: Option<Status>,
    createdAt: Option<Time>,
    sections: Option<int>,
    signals: Option<int>,
    words: Option<int>)

  datatype Registry = Registry(sessions: seq<Session>, activeSessionId: Option<string>)

  // ---------------------------------------------------------------------------
  // Views and invariants
  // ---------------------------------------------------------------------------

  /** The session ids, in list order. */
  function Ids(ss: seq<Session>): (r: seq<string>)
    ensures |r| == |ss|
    ensures forall i :: 0 <= i < |ss| ==> r[i] == ss[i].id
  {
    seq(|ss|, i requires 0 <= i < |ss| => ss[i].id)
  }

  /** The active pointer is null or names a session in the list. */
  predicate ActiveIsListed(st: Registry)
  {
    st.activeSessionId.Some? ==> st.activeSessionId.value in Ids(st.sessions)
  }

  predicate UniqueIds(ss: seq<Session>)
  {
    forall i, j :: 0 <= i < j < |ss| ==> ss[i].id != ss[j].id
  }

  /** Number of sessions that carry the given id. */
  function CountId(ss: seq<Session>, id: string): nat
  {
    if ss == [] then 0 else (if ss[0].id == id then 1 else 0) + CountId(ss[1..], id)
  }

  // ---------------------------------------------------------------------------
  // Initial state
  // ---------------------------------------------------------------------------

  const HourMillis: int := 60 * 60 * 1000

  /** The two demo sessions the registry starts with, created two hours and one day before `now`. */
  function Seed(now: Time): (r: seq<Session>)
    ensures |r| == 2
    ensures UniqueIds(r)
    ensures r[0].createdAt == now - 2 * HourMillis && r[1].createdAt == now - 24 * HourMillis
    ensures forall i :: 0 <= i < |r| ==> r[i].createdAt < now
  {
    [ Session("sess_02a9fe3c", "Hackfest Demo Session", "Live demo BRD for Hackfest 2.0",
              Active, now - 2 * HourMillis, Some(7), Some(183), Some(2840)),
      Session("sess_01b7aa2d", "Project Alpha Kickoff", "Initial requirements for Alpha launch",
              Complete, now - 24 * HourMillis, Some(7), Some(124), Some(2210)) ]
  }

  /** The registry as it is created: the seed, with its first session active. */
  function Init(now: Time): (st: Registry)
    ensures st.sessions == Seed(now)
    ensures st.activeSessionId == Some("sess_02a9fe3c")
    ensures |st.sessions| == 2
    ensures st.activeSessionId == Some(st.sessions[0].id)
    ensures ActiveIsListed(st) && UniqueIds(st.sessions)
  {
    var seed := Seed(now);
    Registry(seed, Some(seed[0].id))
  }

  // ---------------------------------------------------------------------------
  // Actions
  // ---------------------------------------------------------------------------

  function Stamp(n: NewSession, now: Time): Session
  {
    Session(n.id, n.name, n.description, n.status, now, n.sections, n.signals, n.words)
  }

  /** `addSession`: put the new session, stamped with `now`, first and make it active. */
  function AddSession(st: Registry, n: NewSession, now: Time): (r: Registry)
    ensures |r.sessions| == |st.sessions| + 1
    ensures r.sessions[1..] == st.sessions
    ensures r.sessions[0].id == n.id && r.sessions[0].createdAt == now
    ensures r.sessions[0].name == n.name && r.sessions[0].description == n.description
    ensures r.sessions[0].status == n.status
    ensures r.sessions[0].sections == n.sections && r.sessions[0].signals == n.signals
    ensures r.sessions[0].words == n.words
    ensures r.activeSessionId == Some(n.id)
    ensures ActiveIsListed(r)
  {
    var s := Stamp(n, now);
    Registry([s] + st.sessions, Some(s.id))
  }

  /** `setActive`: point at the id, whether or not a session carries it. */
  function SetActive(st: Registry, id: string): (r: Registry)
    ensures r.sessions == st.sessions
    ensures r.activeSessionId == Some(id)
    ensures ActiveIsListed(r) <==> id in Ids(st.sessions)
  {
    st.(activeSessionId := Some(id))
  }

  /** `{...s, ...patch}`: the fields the patch carries replace the session's. */
  function Merge(s: Session, p: Patch): Session
  {
    Session(
      s.id,
      p.name.GetOr(s.name),
      p.description.GetOr(s.description),
      p.status.GetOr(s.status),
      p.createdAt.GetOr(s.createdAt),
      if p.sections.Some? then p.sections else s.sections,
      if p.signals.Some? then p.signals else s.signals,
      if p.words.Some? then p.words else s.words)
  }

  /** `updateSession`: merge the patch into every session with this id. */
  function UpdateSession(st: Registry, id: string, p: Patch): (r: Registry)
    ensures r.activeSessionId == st.activeSessionId
    ensures |r.sessions| == |st.sessions|
    ensures Ids(r.sessions) == Ids(st.sessions)
    ensures forall i :: 0 <= i < |st.sessions| && st.sessions[i].id == id ==>
              && (p.name.Some? ==> r.sessions[i].name == p.name.value)
              && (p.name.None? ==> r.sessions[i].name == st.sessions[i].name)
              && (p.description.Some? ==> r.sessions[i].description == p.description.value)
              && (p.description.None? ==> r.sessions[i].description == st.sessions[i].description)
              && (p.status.Some? ==> r.sessions[i].status == p.status.value)
              && (p.status.None? ==> r.sessions[i].status == st.sessions[i].status)
              && (p.createdAt.Some? ==> r.sessions[i].createdAt == p.createdAt.value)
              && (p.createdAt.None? ==> r.sessions[i].createdAt == st.sessions[i].createdAt)
              && (p.sections.Some? ==> r.sessions[i].sections == p.sections)
              && (p.sections.None? ==> r.sessions[i].sections == st.sessions[i].sections)
              && (p.signals.Some? ==> r.sessions[i].signals == p.signals)
              && (p.signals.None? ==> r.sessions[i].signals == st.sessions[i].signals)
              && (p.words.Some? ==> r.sessions[i].words == p.words)
              && (p.words.None? ==> r.sessions[i].words == st.sessions[i].words)
    ensures forall i :: 0 <= i < |st.sessions| && st.sessions[i].id != id ==>
              r.sessions[i] == st.sessions[i]
  {
    var merged := seq(|st.sessions|, i requires 0 <= i < |st.sessions| =>
                        if st.sessions[i].id == id then Merge(st.sessions[i], p) else st.sessions[i]);
    assert forall i :: 0 <= i < |st.sessions| ==> merged[i].id == st.sessions[i].id;
    st.(sessions := merged)
  }

  /** `sessions.filter(s => s.id !== id)`. */
  function Without(ss: seq<Session>, id: string): (r: seq<Session>)
    ensures |r| == |ss| - CountId(ss, id)
    ensures forall i :: 0 <= i < |r| ==> r[i].id != id
    decreases |ss|
  {
    if ss == [] then []
    else if ss[0].id != id then [ss[0]] + Without(ss[1..], id)
    else Without(ss[1..], id)
  }

  /** `filter` keeps exactly the sessions whose id differs, and invents none. */
  lemma {:induction false} WithoutMembers(ss: seq<Session>, id: string)
    ensures forall s :: s in Without(ss, id) <==> s in ss && s.id != id
    decreases |ss|
  {
    if ss != [] {
      WithoutMembers(ss[1..], id);
      assert ss == [ss[0]] + ss[1..];
    }
  }

  /** `sessions.find(s => s.id !== id)?.id ?? null`: the first other session's id, if any. */
  function FirstOther(ss: seq<Session>, id: string): (r: Option<string>)
    ensures r.None? <==> forall i :: 0 <= i < |ss| ==> ss[i].id == id
    ensures r.Some? ==> exists k :: 0 <= k < |ss| && ss[k].id == r.value && r.value != id &&
                           forall j :: 0 <= j < k ==> ss[j].id == id
    decreases |ss|
  {
    if ss == [] then None
    else if ss[0].id != id then Some(ss[0].id)
    else FirstOther(ss[1..], id)
  }

  /**
   * `removeSession`: drop every session with this id; when it was the active
   * one, fall back to the first other session in the old list, or to none.
   */
  function RemoveSession(st: Registry, id: string): (r: Registry)
    ensures r.sessions == Without(st.sessions, id)
    ensures forall i :: 0 <= i < |r.sessions| ==> r.sessions[i].id != id
    ensures forall s :: s in r.sessions ==> s in st.sessions
    ensures forall s :: s in st.sessions && s.id != id ==> s in r.sessions
    ensures |r.sessions| == |st.sessions| - CountId(st.sessions, id)
    ensures st.activeSessionId != Some(id) ==> r.activeSessionId == st.activeSessionId
    ensures st.activeSessionId == Some(id) ==>
              (r.activeSessionId.None? <==> forall i :: 0 <= i < |st.sessions| ==> st.sessions[i].id == id)
    ensures st.activeSessionId == Some(id) && r.activeSessionId.Some? ==>
              exists k :: 0 <= k < |st.sessions| && st.sessions[k].id == r.activeSessionId.value &&
                r.activeSessionId.value != id && forall j :: 0 <= j < k ==> st.sessions[j].id == id
  {
    WithoutMembers(st.sessions, id);
    Registry(
      Without(st.sessions, id),
      if st.activeSessionId == Some(id) then FirstOther(st.sessions, id) else st.activeSessionId)
  }

  /** Every registry action, with its arguments. */
  datatype Action =
    | AddSessionAction(session: NewSession, now: Time)
    | SetActiveAction(id: string)
    | UpdateSessionAction(id: string, patch: Patch)
    | RemoveSessionAction(id: string)

  function Apply(st: Registry, a: Action): Registry
  {
    match a
    case AddSessionAction(n, now) => AddSession(st, n, now)
    case SetActiveAction(id) => SetActive(st, id)
    case UpdateSessionAction(id, p) => UpdateSession(st, id, p)
    case RemoveSessionAction(id) => RemoveSession(st, id)
  }

  function Run(st: Registry, actions: seq<Action>): Registry
    decreases |actions|
  {
    if actions == [] then st else Run(Apply(st, actions[0]), actions[1..])
  }

  /** A caller that only ever activates sessions that are listed at that moment. */
  predicate ActivatesListedOnly(st: Registry, actions: seq<Action>)
    decreases |actions|
  {
    actions == [] ||
    ((actions[0].SetActiveAction? ==> actions[0].id in Ids(st.sessions)) &&
     ActivatesListedOnly(Apply(st, actions[0]), actions[1..]))
  }

  // ---------------------------------------------------------------------------
  // Properties
  // ---------------------------------------------------------------------------

  /** One step of `filter`: the head is kept exactly when its id differs. */
  lemma WithoutCons(x: Session, rest: seq<Session>, id: string)
    ensures Without([x] + rest, id) == (if x.id != id then [x] else []) + Without(rest, id)
  {
  }

  /** `filter` keeps relative order: filtering a concatenation concatenates the filtered parts. */
  lemma {:induction false} WithoutDistributes(a: seq<Session>, b: seq<Session>, id: string)
    ensures Without(a + b, id) == Without(a, id) + Without(b, id)
    decreases |a|
  {
    if a == [] {
      assert a + b == b;
    } else {
      var head := if a[0].id != id then [a[0]] else [];
      assert a == [a[0]] + a[1..];
      assert a + b == [a[0]] + (a[1..] + b);
      WithoutCons(a[0], a[1..] + b, id);
      WithoutCons(a[0], a[1..], id);
      WithoutDistributes(a[1..], b, id);
      assert head + (Without(a[1..], id) + Without(b, id))
          == (head + Without(a[1..], id)) + Without(b, id);
    }
  }

  /** Filtering out an id no session carries keeps the list as it is. */
  lemma {:induction false} WithoutAbsent(ss: seq<Session>, id: string)
    requires forall i :: 0 <= i < |ss| ==> ss[i].id != id
    ensures Without(ss, id) == ss
    decreases |ss|
  {
    if ss != [] {
      WithoutAbsent(ss[1..], id);
      assert [ss[0]] + ss[1..] == ss;
    }
  }

  /** The fallback active id is the id at the head of the filtered list. */
  lemma {:induction false} FallbackIsHeadOfRemaining(ss: seq<Session>, id: string)
    ensures FirstOther(ss, id) ==
              (if Without(ss, id) == [] then None else Some(Without(ss, id)[0].id))
    decreases |ss|
  {
    if ss != [] && ss[0].id == id {
      FallbackIsHeadOfRemaining(ss[1..], id);
    }
  }

  /** After `removeSession` of the active session, the new active one is the first that remains. */
  lemma RemoveActiveFallsBackToFirstRemaining(st: Registry, id: string)
    requires st.activeSessionId == Some(id)
    ensures var r := RemoveSession(st, id);
            r.activeSessionId == (if r.sessions == [] then None else Some(r.sessions[0].id))
  {
    FallbackIsHeadOfRemaining(st.sessions, id);
  }

  /** Removing a freshly added session gives back the old list. */
  lemma RemoveUndoesAdd(st: Registry, n: NewSession, now: Time)
    requires n.id !in Ids(st.sessions)
    ensures RemoveSession(AddSession(st, n, now), n.id).sessions == st.sessions
  {
    forall i | 0 <= i < |st.sessions| ensures st.sessions[i].id != n.id {
      assert Ids(st.sessions)[i] == st.sessions[i].id;
    }
    WithoutAbsent(st.sessions, n.id);
    assert [Stamp(n, now)] + st.sessions == AddSession(st, n, now).sessions;
  }

  /** `{...p1, ...p2}`: the later patch's fields win over the earlier one's. */
  function Overlay(p1: Patch, p2: Patch): Patch
  {
    Patch(
      if p2.name.Some? then p2.name else p1.name,
      if p2.description.Some? then p2.description else p1.description,
      if p2.status.Some? then p2.status else p1.status,
      if p2.createdAt.Some? then p2.createdAt else p1.createdAt,
      if p2.sections.Some? then p2.sections else p1.sections,
      if p2.signals.Some? then p2.signals else p1.signals,
      if p2.words.Some? then p2.words else p1.words)
  }

  const EmptyPatch: Patch := Patch(None, None, None, None, None, None, None)

  /** Two patches in a row are one patch carrying both, the later winning. */
  lemma UpdateTwiceIsOverlay(st: Registry, id: string, p1: Patch, p2: Patch)
    ensures UpdateSession(UpdateSession(st, id, p1), id, p2) == UpdateSession(st, id, Overlay(p1, p2))
  {
  }

  /** A patch with no fields changes nothing. */
  lemma EmptyPatchIsNoOp(st: Registry, id: string)
    ensures UpdateSession(st, id, EmptyPatch) == st
  {
  }

  /** `addSession` makes the active pointer valid whatever it was: it names the session just listed. */
  lemma AddKeepsActiveListed(st: Registry, n: NewSession, now: Time)
    ensures ActiveIsListed(AddSession(st, n, now))
  {
  }

  /** `updateSession` keeps every id, so a valid active pointer stays valid. */
  lemma UpdateKeepsActiveListed(st: Registry, id: string, p: Patch)
    requires ActiveIsListed(st)
    ensures ActiveIsListed(UpdateSession(st, id, p))
  {
  }

  /** `removeSession` falls back to a listed session or to none, so the pointer stays valid. */
  lemma RemoveKeepsActiveListed(st: Registry, id: string)
    requires ActiveIsListed(st)
    ensures ActiveIsListed(RemoveSession(st, id))
  {
  }

  /** Unique ids survive `updateSession`, `removeSession` and adding a fresh id. */
  lemma ActionsKeepUniqueIds(st: Registry, n: NewSession, now: Time, id: string, p: Patch)
    requires UniqueIds(st.sessions)
    ensures n.id !in Ids(st.sessions) ==> UniqueIds(AddSession(st, n, now).sessions)
    ensures UniqueIds(UpdateSession(st, id, p).sessions)
    ensures UniqueIds(RemoveSession(st, id).sessions)
  {
    var u := UpdateSession(st, id, p).sessions;
    forall i, j | 0 <= i < j < |u| ensures u[i].id != u[j].id {
      assert Ids(u)[i] == Ids(st.sessions)[i] && Ids(u)[j] == Ids(st.sessions)[j];
    }
    if n.id !in Ids(st.sessions) {
      var a := AddSession(st, n, now).sessions;
      forall i, j | 0 <= i < j < |a| ensures a[i].id != a[j].id {
        if i == 0 {
          assert a[j] == st.sessions[j - 1];
          assert Ids(st.sessions)[j - 1] == a[j].id;
        } else {
          assert a[i] == st.sessions[i - 1] && a[j] == st.sessions[j - 1];
        }
      }
    }
    WithoutKeepsUnique(st.sessions, id);
  }

  lemma {:induction false} WithoutKeepsUnique(ss: seq<Session>, id: string)
    requires UniqueIds(ss)
    ensures UniqueIds(Without(ss, id))
    decreases |ss|
  {
    if ss != [] {
      var rest := ss[1..];
      assert UniqueIds(rest) by {
        forall i, j | 0 <= i < j < |rest| ensures rest[i].id != rest[j].id {
          assert rest[i] == ss[i + 1] && rest[j] == ss[j + 1];
        }
      }
      WithoutKeepsUnique(rest, id);
      if ss[0].id != id {
        var w := Without(rest, id);
        WithoutMembers(rest, id);
        forall k | 0 <= k < |w| ensures w[k].id != ss[0].id {
          assert w[k] in rest;
          var m :| 0 <= m < |rest| && rest[m] == w[k];
          assert rest[m] == ss[m + 1];
        }
      }
    }
  }

  /**
   * From a registry whose active pointer is valid, every run of actions that
   * only activates listed sessions ends with the pointer still valid.
   */
  lemma {:induction false} RunKeepsActiveListed(st: Registry, actions: seq<Action>)
    requires ActiveIsListed(st)
    requires ActivatesListedOnly(st, actions)
    ensures ActiveIsListed(Run(st, actions))
    decreases |actions|
  {
    if actions != [] {
      var a := actions[0];
      match a {
        case SetActiveAction(id) =>
        case AddSessionAction(n, now) => AddKeepsActiveListed(st, n, now);
        case UpdateSessionAction(id, p) => UpdateKeepsActiveListed(st, id, p);
        case RemoveSessionAction(id) => RemoveKeepsActiveListed(st, id);
      }
      RunKeepsActiveListed(Apply(st, a), actions[1..]);
    }
  }
}
