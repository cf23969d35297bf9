/** The founder's publish, rotate and remove commands and the states they can stop in
    (`admin.rs`, with `rotate_key`, `publish_membership` and `provision_team_key` of the core). */
module Removal {
  import opened Options
  import opened OpLog

  type Member = nat
  type Key = nat

  /** The team as the bucket holds it, with the operator's `max_epoch` setting.

      `wraps[(e, m)]` is the key wrapped to `m` at epoch `e`; `given` remembers every key a member
      ever received, by a wrap or by hand, for nobody forgets one. Keys below `minted` exist; key 0
      is the founding key. */
  datatype Team = Team(
    founder: Member,
    pinned: bool,
    roster: Option<set<Member>>,
    joined: seq<Member>,
    wraps: map<(nat, Member), Key>,
    given: set<(Key, Member)>,
    minted: nat,
    maxEpoch: nat)

  datatype Outcome =
    | Done
    | Rotated(epoch: nat)
    | AlreadyExcluded
    | NothingToRotate
    | Pending               // published, not rotated, reported as success
    | OpenTeam
    | TargetIsFounder
    | ManifestUnavailable
    | StorageFailed

  datatype Strictness = Strict | Tolerant

  /** Where storage fails: at the manifest put, or after so many wrap puts. */
  datatype Faults = Faults(publishFails: bool, putsLanded: Option<nat>)

  // ---------------------------------------------------------------- the steps

  /** `publish_membership`: the founder is always on the roster it signs. */
  function Publish(s: Team, members: set<Member>): Team {
    s.(roster := Some(members + {s.founder}))
  }

  predicate MayHold(s: Team, m: Member) {
    if s.roster.Some? then m in s.roster.value else !s.pinned
  }

  /** The published member keys the wrap gate lets through, in listing order. */
  function Authorized(s: Team, keys: seq<Member>): seq<Member> {
    if keys == [] then []
    else
      var before, last := keys[..|keys| - 1], keys[|keys| - 1];
      Authorized(s, before) + if MayHold(s, last) then [last] else []
  }

  function Wrap(s: Team, epoch: nat, key: Key, m: Member): Team {
    s.(wraps := s.wraps[(epoch, m) := key], given := s.given + {(key, m)})
  }

  function WrapAll(s: Team, epoch: nat, key: Key, who: seq<Member>): Team {
    if who == [] then s else Wrap(WrapAll(s, epoch, key, who[..|who| - 1]), epoch, key, who[|who| - 1])
  }

  predicate Fails(who: seq<Member>, landed: Option<nat>) {
    landed.Some? && landed.value < |who|
  }

  function Landed(who: seq<Member>, landed: Option<nat>): seq<Member> {
    if Fails(who, landed) then who[..landed.value] else who
  }

  /** `rotate_key`. The ring a command's bootstrap loads tries epochs up to `max_epoch`, so the
      floor it takes with `max_epoch` is `max_epoch`. */
  function Rotate(s: Team, landed: Option<nat>): (Team, Outcome) {
    var who := Authorized(s, s.joined);
    if s.roster == None && s.pinned then (s, ManifestUnavailable)
    else if who == [] then (s, NothingToRotate)
    else
      var next := WrapAll(s, s.maxEpoch + 1, s.minted, Landed(who, landed)).(minted := s.minted + 1);
      (next, if Fails(who, landed) then StorageFailed else Rotated(s.maxEpoch + 1))
  }

  function PublishAndRotate(s: Team, members: Option<set<Member>>, strictness: Strictness, shouldRotate: bool,
                            io: Faults): (Team, Outcome) {
    if members.Some? && io.publishFails then (s, StorageFailed)
    else
      var published := if members.Some? then Publish(s, members.value) else s;
      if !shouldRotate then (published, Done)
      else
        var (next, out) := Rotate(published, io.putsLanded);
        (next, if out == NothingToRotate && strictness == Tolerant then Pending else out)
  }

  datatype RemovalStep = PublishStep(remaining: set<Member>) | ExcludedStep | RefusedStep(why: Outcome)

  function PlanRemoval(s: Team, target: Member): RemovalStep {
    if s.roster == None then RefusedStep(OpenTeam)
    else if s.founder == target then RefusedStep(TargetIsFounder)
    else if target !in s.roster.value then ExcludedStep
    else PublishStep(s.roster.value - {target})
  }

  function Remove(s: Team, target: Member, io: Faults): (Team, Outcome) {
    match PlanRemoval(s, target)
    case RefusedStep(why) => (s, why)
    case ExcludedStep => (PublishAndRotate(s, None, Tolerant, false, io).0, AlreadyExcluded)
    case PublishStep(remaining) => PublishAndRotate(s, Some(remaining), Tolerant, true, io)
  }

  /** The commands as they run, object by object. */
  class TeamStore {
    var team: Team

    constructor (team: Team)
      ensures this.team == team
    {
      this.team := team;
    }

    method PublishMembership(members: set<Member>)
      modifies this
      ensures team == Publish(old(team), members)
    {
      team := team.(roster := Some(members + {team.founder}));
    }

    method ProvisionTeamKey(key: Key, epoch: nat, putsLanded: Option<nat>) returns (wrapped: set<Member>, failed: bool)
      modifies this
      ensures PutsOf(old(team), epoch, key, putsLanded, team, wrapped, failed)
    {
      team, wrapped, failed := PutWraps(team, key, epoch, putsLanded);
    }

    method RotateKey(putsLanded: Option<nat>) returns (out: Outcome)
      modifies this
      ensures team == Rotate(old(team), putsLanded).0 && out == Rotate(old(team), putsLanded).1
    {
      if team.roster == None && team.pinned { return ManifestUnavailable; }
      var epoch, key := team.maxEpoch + 1, team.minted;
      RotateCases(team, putsLanded);
      var wrapped, failed := ProvisionTeamKey(key, epoch, putsLanded);
      NobodyWrapped(old(team));
      if !failed && wrapped == {} { return NothingToRotate; }
      team := team.(minted := key + 1);
      out := if failed then StorageFailed else Rotated(epoch);
    }

    method RemoveMember(target: Member, io: Faults) returns (out: Outcome)
      modifies this
      ensures (team, out) == Remove(old(team), target, io)
    {
      var step := PlanRemoval(team, target);
      match step
      case RefusedStep(why) => return why;
      case ExcludedStep => return AlreadyExcluded;
      case PublishStep(remaining) =>
        if io.publishFails { return StorageFailed; }
        PublishMembership(remaining);
        out := RotateKey(io.putsLanded);
        if out == NothingToRotate { out := Pending; }
    }
  }

  /** `provision_team_key`: one put per authorized member key; a failed put stops the loop. */
  method PutWraps(start: Team, key: Key, epoch: nat, putsLanded: Option<nat>)
    returns (team: Team, wrapped: set<Member>, failed: bool)
    ensures PutsOf(start, epoch, key, putsLanded, team, wrapped, failed)
  {
    var keys := start.joined;
    ghost var done: seq<Member> := [];
    team, wrapped := start, {};
    var puts := 0;
    for i := 0 to |keys|
      invariant Provisioned(start, epoch, key, i, done, team, wrapped) && puts == |done|
      invariant putsLanded.Some? ==> puts <= putsLanded.value
    {
      ProvisionStep(start, epoch, key, i, done, team, wrapped);
      if MayHold(team, keys[i]) {
        if putsLanded == Some(puts) {
          ProvisionFails(start, epoch, key, i, done, team, wrapped);
          return team, wrapped, true;
        }
        team := Wrap(team, epoch, key, keys[i]);
        wrapped := wrapped + {keys[i]};
        puts := puts + 1;
        done := done + [keys[i]];
      }
    }
    ProvisionEnds(start, epoch, key, done, team, wrapped, putsLanded);
    failed := false;
  }

  /** What the puts amount to: a wrap for every authorized member, or for those before the failing put. */
  ghost predicate PutsOf(start: Team, epoch: nat, key: Key, putsLanded: Option<nat>, team: Team, wrapped: set<Member>,
                         failed: bool) {
    var who := Authorized(start, start.joined);
    && team == WrapAll(start, epoch, key, Landed(who, putsLanded))
    && (failed <==> Fails(who, putsLanded))
    && (!failed ==> wrapped == Members(who))
  }

  lemma ProvisionFails(start: Team, epoch: nat, key: Key, i: nat, done: seq<Member>, team: Team, wrapped: set<Member>)
    requires i < |start.joined| && Provisioned(start, epoch, key, i, done, team, wrapped)
             && MayHold(start, start.joined[i])
    ensures PutsOf(start, epoch, key, Some(|done|), team, wrapped, true)
  {
    PutFails(start, start.joined, i, done);
  }

  lemma ProvisionEnds(start: Team, epoch: nat, key: Key, done: seq<Member>, team: Team, wrapped: set<Member>,
                      putsLanded: Option<nat>)
    requires Provisioned(start, epoch, key, |start.joined|, done, team, wrapped)
    requires putsLanded.Some? ==> |done| <= putsLanded.value
    ensures PutsOf(start, epoch, key, putsLanded, team, wrapped, false)
  {
    assert start.joined[..|start.joined|] == start.joined;
  }

  /** The first `i` member keys have been looked at, and `done` wrapped. */
  ghost predicate Provisioned(start: Team, epoch: nat, key: Key, i: nat, done: seq<Member>, team: Team,
                              wrapped: set<Member>) {
    && i <= |start.joined| && done == Authorized(start, start.joined[..i])
    && team == WrapAll(start, epoch, key, done) && wrapped == Members(done)
  }

  lemma ProvisionStep(start: Team, epoch: nat, key: Key, i: nat, done: seq<Member>, team: Team, wrapped: set<Member>)
    requires i < |start.joined| && Provisioned(start, epoch, key, i, done, team, wrapped)
    ensures var m := start.joined[i];
            && MayHold(team, m) == MayHold(start, m)
            && if MayHold(team, m)
               then Provisioned(start, epoch, key, i + 1, done + [m], Wrap(team, epoch, key, m), wrapped + {m})
               else Provisioned(start, epoch, key, i + 1, done, team, wrapped)
  {
    AuthorizedStep(start, start.joined, i);
    GateStays(start, epoch, key, done, start.joined[i]);
    WrapPush(start, epoch, key, done, start.joined[i]);
  }

  function Members(who: seq<Member>): set<Member> { set m | m in who }

  lemma AuthorizedStep(s: Team, keys: seq<Member>, i: nat)
    requires i < |keys|
    ensures Authorized(s, keys[..i + 1]) == Authorized(s, keys[..i]) + if MayHold(s, keys[i]) then [keys[i]] else []
  {
    assert keys[..i + 1][..i] == keys[..i] && keys[..i + 1][i] == keys[i];
  }

  lemma WrapPush(s: Team, epoch: nat, key: Key, done: seq<Member>, m: Member)
    ensures WrapAll(s, epoch, key, done + [m]) == Wrap(WrapAll(s, epoch, key, done), epoch, key, m)
    ensures Members(done + [m]) == Members(done) + {m}
  {
    assert (done + [m])[..|done|] == done;
  }

  /** A rotation past its first check, by what its puts did. */
  lemma RotateCases(s: Team, landed: Option<nat>)
    requires !(s.roster == None && s.pinned)
    ensures var who, next := Authorized(s, s.joined),
            WrapAll(s, s.maxEpoch + 1, s.minted, Landed(Authorized(s, s.joined), landed));
            && (who == [] ==> !Fails(who, landed) && next == s && Rotate(s, landed) == (s, NothingToRotate))
            && (who != [] ==>
               Rotate(s, landed) ==
               (next.(minted := s.minted + 1), if Fails(who, landed) then StorageFailed else Rotated(s.maxEpoch + 1)))
  {
  }

  lemma NobodyWrapped(s: Team)
    ensures Members(Authorized(s, s.joined)) == {} <==> Authorized(s, s.joined) == []
  {
    var who := Authorized(s, s.joined);
    if who != [] { assert who[0] in Members(who); }
  }

  lemma PutFails(s: Team, keys: seq<Member>, i: nat, done: seq<Member>)
    requires i < |keys| && done == Authorized(s, keys[..i]) && MayHold(s, keys[i])
    ensures var who := Authorized(s, keys); Fails(who, Some(|done|)) && Landed(who, Some(|done|)) == done
  {
    AuthorizedStep(s, keys, i);
    AuthorizedGrows(s, keys, i + 1);
    assert Authorized(s, keys)[..|done|] == done;
  }

  lemma {:induction false} AuthorizedGrows(s: Team, keys: seq<Member>, i: nat)
    requires i <= |keys|
    ensures Authorized(s, keys[..i]) <= Authorized(s, keys)
    decreases |keys| - i
  {
    if i == |keys| {
      assert keys[..i] == keys;
    } else {
      AuthorizedGrows(s, keys, i + 1);
      assert keys[..i + 1][..i] == keys[..i];
    }
  }

  lemma {:induction false} GateUnmoved(s: Team, epoch: nat, key: Key, who: seq<Member>)
    ensures var t := WrapAll(s, epoch, key, who);
            t == s.(wraps := t.wraps, given := t.given)
  {
    if who != [] { GateUnmoved(s, epoch, key, who[..|who| - 1]); }
  }

  lemma GateStays(s: Team, epoch: nat, key: Key, who: seq<Member>, m: Member)
    ensures MayHold(WrapAll(s, epoch, key, who), m) == MayHold(s, m)
  {
    GateUnmoved(s, epoch, key, who);
  }

  // ---------------------------------------------------------------- what wrapping does

  lemma {:induction false} AuthorizedMeans(s: Team, keys: seq<Member>, m: Member)
    ensures m in Authorized(s, keys) <==> m in keys && MayHold(s, m)
  {
    if keys != [] {
      AuthorizedMeans(s, keys[..|keys| - 1], m);
      assert keys == keys[..|keys| - 1] + [keys[|keys| - 1]];
    }
  }

  /** A wrap appears for exactly the named members at exactly the named epoch. */
  lemma {:induction false} WrapAllMeans(s: Team, epoch: nat, key: Key, who: seq<Member>, e: nat, m: Member)
    ensures var t := WrapAll(s, epoch, key, who);
            && ((e, m) in t.wraps <==> (e, m) in s.wraps || (e == epoch && m in who))
            && ((e, m) in t.wraps ==> t.wraps[(e, m)] == if e == epoch && m in who then key else s.wraps[(e, m)])
            && (forall k :: (k, m) in t.given <==> (k, m) in s.given || (k == key && m in who))
  {
    if who != [] {
      WrapAllMeans(s, epoch, key, who[..|who| - 1], e, m);
      assert who == who[..|who| - 1] + [who[|who| - 1]];
    }
  }

  /** Wrapping to the members a rotation lands on, all authorized. */
  lemma LandedAreAuthorized(s: Team, landed: Option<nat>, m: Member)
    requires m in Landed(Authorized(s, s.joined), landed)
    ensures MayHold(s, m) && m in s.joined
  {
    AuthorizedMeans(s, s.joined, m);
  }

  // ---------------------------------------------------------------- runs

  datatype Command =
    | Join(member: Member)
    | HandBundle(member: Member)
    | PublishCommand(members: set<Member>, io: Faults)
    | Provision(epoch: nat, io: Faults)
    | RotateCommand(republish: Option<set<Member>>, io: Faults)
    | RemoveCommand(target: Member, io: Faults)
    | SetMaxEpoch(epoch: nat)

  /** A key the founder's process holds for `epoch`. */
  function FounderKey(s: Team, epoch: nat): Option<Key> {
    if (epoch, s.founder) in s.wraps then Some(s.wraps[(epoch, s.founder)])
    else if epoch == 0 then Some(0) else None
  }

  function Next(s: Team, c: Command): (Team, Outcome) {
    match c
    case Join(m) => (if m in s.joined then s else s.(joined := s.joined + [m]), Done)
    case HandBundle(m) => (s.(given := s.given + {(0, m)}), Done)
    case PublishCommand(members, io) => PublishAndRotate(s, Some(members), Strict, false, io)
    case Provision(epoch, io) =>
      if FounderKey(s, epoch) == None then (s, ManifestUnavailable)
      else (WrapAll(s, epoch, FounderKey(s, epoch).value, Landed(Authorized(s, s.joined), io.putsLanded)), Done)
    case RotateCommand(members, io) => PublishAndRotate(s, members, Strict, true, io)
    case RemoveCommand(t, io) => Remove(s, t, io)
    case SetMaxEpoch(n) => (s.(maxEpoch := n), Done)
  }

  function After(s: Team, cs: seq<Command>): Team {
    if cs == [] then s else Next(After(s, cs[..|cs| - 1]), cs[|cs| - 1]).0
  }

  ghost predicate Founded(s: Team) {
    s.wraps == map[] && s.given == {(0, s.founder)} && s.minted == 1 && s.joined == [] && s.roster == None
  }

  /** The founder is on every roster, and every key in use exists and is remembered as given. */
  ghost predicate Sound(s: Team) {
    && (s.roster.Some? ==> s.founder in s.roster.value)
    && s.minted > 0
    && (forall k, m :: (k, m) in s.given ==> k < s.minted)
    && (forall e, m :: (e, m) in s.wraps ==> (s.wraps[(e, m)], m) in s.given)
  }

  lemma FoundedIsSound(s: Team)
    requires Founded(s)
    ensures Sound(s)
  {
  }

  lemma WrapSound(s: Team, epoch: nat, key: Key, who: seq<Member>, minted: nat)
    requires Sound(s) && key < minted && s.minted <= minted
    ensures Sound(WrapAll(s, epoch, key, who).(minted := minted))
  {
    var t := WrapAll(s, epoch, key, who);
    GateUnmoved(s, epoch, key, who);
    forall k, m | (k, m) in t.given ensures k < minted { WrapAllMeans(s, epoch, key, who, 0, m); }
    forall e, m | (e, m) in t.wraps ensures (t.wraps[(e, m)], m) in t.given { WrapAllMeans(s, epoch, key, who, e, m); }
  }

  lemma RotateSound(s: Team, landed: Option<nat>)
    requires Sound(s)
    ensures Sound(Rotate(s, landed).0)
  {
    WrapSound(s, s.maxEpoch + 1, s.minted, Landed(Authorized(s, s.joined), landed), s.minted + 1);
  }

  lemma PublishAndRotateSound(s: Team, members: Option<set<Member>>, strictness: Strictness, shouldRotate: bool,
                              io: Faults)
    requires Sound(s)
    ensures Sound(PublishAndRotate(s, members, strictness, shouldRotate, io).0)
    ensures PublishAndRotate(s, members, strictness, shouldRotate, io).0.founder == s.founder
  {
    var p := if members.Some? then Publish(s, members.value) else s;
    RotateSound(p, io.putsLanded);
    GateUnmoved(p, p.maxEpoch + 1, p.minted, Landed(Authorized(p, p.joined), io.putsLanded));
  }

  lemma NextSound(s: Team, c: Command)
    requires Sound(s)
    ensures Sound(Next(s, c).0)
    ensures Next(s, c).0.founder == s.founder
  {
    match c
    case RotateCommand(members, io) => PublishAndRotateSound(s, members, Strict, true, io);
    case RemoveCommand(t, io) =>
      if PlanRemoval(s, t).PublishStep? {
        PublishAndRotateSound(s, Some(PlanRemoval(s, t).remaining), Tolerant, true, io);
      }
    case Provision(epoch, io) =>
      if FounderKey(s, epoch).Some? {
        var who := Landed(Authorized(s, s.joined), io.putsLanded);
        WrapSound(s, epoch, FounderKey(s, epoch).value, who, s.minted);
        GateUnmoved(s, epoch, FounderKey(s, epoch).value, who);
      }
    case _ =>
  }

  lemma {:induction false} RunsStaySound(s: Team, cs: seq<Command>)
    requires Sound(s)
    ensures Sound(After(s, cs)) && After(s, cs).founder == s.founder
  {
    if cs != [] {
      RunsStaySound(s, cs[..|cs| - 1]);
      NextSound(After(s, cs[..|cs| - 1]), cs[|cs| - 1]);
    }
  }

  /** Over every run of a new team the founder stays on the roster, and every key in use is accounted for. */
  lemma FounderStays(s: Team, cs: seq<Command>)
    requires Founded(s)
    ensures Sound(After(s, cs))
    ensures After(s, cs).roster.Some? ==> s.founder in After(s, cs).roster.value
  {
    FoundedIsSound(s);
    RunsStaySound(s, cs);
  }

  // ---------------------------------------------------------------- a removed member stays out

  predicate Relists(c: Command, t: Member) {
    || (c.PublishCommand? && t in c.members)
    || (c.RotateCommand? && c.republish.Some? && t in c.republish.value)
  }

  /** A command relists exactly when, its puts landing, it puts one who is off the roster on it. */
  lemma RelistsIff(s: Team, c: Command, t: Member)
    requires Sound(s) && s.roster.Some? && t !in s.roster.value && t != s.founder
    requires c.PublishCommand? || c.RotateCommand? ==> !c.io.publishFails
    ensures Relists(c, t) <==> Next(s, c).0.roster.Some? && t in Next(s, c).0.roster.value
  {
    if c.RemoveCommand? { RosterAfterRemoval(s, c.target, c.io); } else { RosterAfterCommand(s, c); }
  }

  /** `t` is off the roster of a team that has one. */
  predicate OffRoster(s: Team, t: Member) {
    s.roster.Some? && t !in s.roster.value && t != s.founder
  }

  /** Nothing `t` can read with was added, save the founding key by hand. */
  ghost predicate NothingNewFor(s: Team, f: Team, t: Member) {
    && (forall e :: (e, t) in f.wraps <==> (e, t) in s.wraps)
    && (forall k :: k > 0 ==> ((k, t) in f.given <==> (k, t) in s.given))
  }

  lemma WrapNotTo(s: Team, epoch: nat, key: Key, who: seq<Member>, t: Member)
    requires t !in who
    ensures NothingNewFor(s, WrapAll(s, epoch, key, who), t)
  {
    forall e: nat
      ensures (e, t) in WrapAll(s, epoch, key, who).wraps <==> (e, t) in s.wraps
    {
      WrapAllMeans(s, epoch, key, who, e, t);
    }
    WrapAllMeans(s, epoch, key, who, 0, t);
  }

  lemma RotateNotTo(s: Team, landed: Option<nat>, t: Member)
    requires OffRoster(s, t)
    ensures OffRoster(Rotate(s, landed).0, t) && NothingNewFor(s, Rotate(s, landed).0, t)
  {
    var who := Landed(Authorized(s, s.joined), landed);
    AuthorizedMeans(s, s.joined, t);
    WrapNotTo(s, s.maxEpoch + 1, s.minted, who, t);
    GateUnmoved(s, s.maxEpoch + 1, s.minted, who);
  }

  lemma NextNotTo(s: Team, c: Command, t: Member)
    requires OffRoster(s, t) && !Relists(c, t)
    ensures OffRoster(Next(s, c).0, t) && NothingNewFor(s, Next(s, c).0, t)
  {
    match c
    case RotateCommand(members, io) => RotateNotTo(if members.Some? then Publish(s, members.value)
      else s, io.putsLanded, t);
    case RemoveCommand(target, io) =>
      if PlanRemoval(s, target).PublishStep? {
        RotateNotTo(Publish(s, PlanRemoval(s, target).remaining), io.putsLanded, t);
      }
    case Provision(epoch, io) =>
      if FounderKey(s, epoch).Some? {
        var who := Landed(Authorized(s, s.joined), io.putsLanded);
        AuthorizedMeans(s, s.joined, t);
        WrapNotTo(s, epoch, FounderKey(s, epoch).value, who, t);
        GateUnmoved(s, epoch, FounderKey(s, epoch).value, who);
      }
    case _ =>
  }

  /** Until a publish lists `t` again, no run gives `t` another key or wrap. */
  lemma {:induction false} RemovedStaysOut(s: Team, cs: seq<Command>, t: Member)
    requires OffRoster(s, t)
    requires forall c :: c in cs ==> !Relists(c, t)
    ensures OffRoster(After(s, cs), t) && NothingNewFor(s, After(s, cs), t)
  {
    if cs != [] {
      var before, last := cs[..|cs| - 1], cs[|cs| - 1];
      assert last in cs && forall c :: c in before ==> c in cs;
      RemovedStaysOut(s, before, t);
      NextNotTo(After(s, before), last, t);
    }
  }

  /** What a removal that rotates leaves: a new key, unknown to `t`, wrapped to every remaining
      member who has joined. */
  lemma RemovalRotates(s: Team, t: Member, io: Faults)
    requires Sound(s) && Remove(s, t, io).1.Rotated?
    ensures var f, e := Remove(s, t, io).0, Remove(s, t, io).1.epoch;
            && e == s.maxEpoch + 1 && OffRoster(f, t) && s.minted < f.minted
            && (forall k :: k >= s.minted ==> (k, t) !in f.given)
            && (forall e :: (e, t) in f.wraps <==> (e, t) in s.wraps)
            && (forall m :: m in f.joined && m in f.roster.value ==> (e, m) in f.wraps && f.wraps[(e, m)] == s.minted)
  {
    var p := Publish(s, s.roster.value - {t});
    RotateNotTo(p, io.putsLanded, t);
    var f, e, who := Remove(s, t, io).0, Remove(s, t, io).1.epoch, Authorized(p, p.joined);
    GateUnmoved(p, e, p.minted, who);
    forall m | m in f.joined && m in f.roster.value ensures (e, m) in f.wraps && f.wraps[(e, m)] == s.minted {
      AuthorizedMeans(p, p.joined, m);
      WrapAllMeans(p, e, p.minted, who, e, m);
    }
  }

  /** `remove t` does what it is for: from the moment it rotates, over every later run that does
      not list `t` again, `t` never holds the new key or any minted after it. */
  lemma RemovalSeals(s: Team, t: Member, io: Faults, cs: seq<Command>)
    requires Sound(s) && Remove(s, t, io).1.Rotated?
    requires forall c :: c in cs ==> !Relists(c, t)
    ensures forall k :: k >= s.minted ==> (k, t) !in After(Remove(s, t, io).0, cs).given
  {
    RemovalRotates(s, t, io);
    RemovedStaysOut(Remove(s, t, io).0, cs, t);
  }

  /** The wraps as listed: `t` is outside those of the new and all later epochs, in every such run,
      exactly when no epoch above `max_epoch` had been published to `t`. */
  lemma RemovalClearsWraps(s: Team, t: Member, io: Faults, cs: seq<Command>)
    requires Sound(s) && Remove(s, t, io).1.Rotated?
    requires forall c :: c in cs ==> !Relists(c, t)
    ensures (forall e :: e >= Remove(s, t, io).1.epoch ==> (e, t) !in After(Remove(s, t, io).0, cs).wraps)
            <==> (forall e :: e > s.maxEpoch ==> (e, t) !in s.wraps)
  {
    RemovalRotates(s, t, io);
    RemovedStaysOut(Remove(s, t, io).0, cs, t);
    var f := After(Remove(s, t, io).0, cs);
    assert forall e :: (e, t) in f.wraps <==> (e, t) in s.wraps;
  }

  /** A removal leaves `t` off the roster exactly when it was not refused and its publish, where one
      was needed, landed; whatever then became of the rotation, re-running it changes nothing. */
  lemma RemovalIsIdempotent(s: Team, t: Member, io: Faults, again: Faults)
    requires Sound(s)
    ensures var f := Remove(s, t, io).0;
            && (OffRoster(f, t) <==> s.roster.Some? && t != s.founder && (t in s.roster.value ==> !io.publishFails))
            && (OffRoster(f, t) ==> Remove(f, t, again) == (f, AlreadyExcluded))
  {
    if PlanRemoval(s, t).PublishStep? && !io.publishFails {
      RotateNotTo(Publish(s, s.roster.value - {t}), io.putsLanded, t);
    }
  }

  // ---------------------------------------------------------------- half-done removals

  /** The newest epoch with a wrap. */
  ghost predicate IsHighest(s: Team, e: nat) {
    (exists m :: (e, m) in s.wraps) && (forall d, m :: (d, m) in s.wraps ==> d <= e)
  }

  /** `m` is off the roster but wrapped at the newest epoch: what `doctor` warns about. */
  ghost predicate HalfDone(s: Team, m: Member) {
    s.roster.Some? && m !in s.roster.value && exists e: nat :: IsHighest(s, e) && (e, m) in s.wraps
  }

  ghost predicate Clean(s: Team) { forall m :: !HalfDone(s, m) }

  /** `max_epoch` covers every published epoch: what the rotation banner asks operators to keep. */
  ghost predicate MaxEpochCurrent(s: Team) { forall e, m :: (e, m) in s.wraps ==> e <= s.maxEpoch }

  lemma {:induction false} WrapsGrow(s: Team, epoch: nat, key: Key, who: seq<Member>)
    ensures s.wraps.Keys <= WrapAll(s, epoch, key, who).wraps.Keys
  {
    if who != [] { WrapsGrow(s, epoch, key, who[..|who| - 1]); }
  }

  lemma RotateGrows(s: Team, landed: Option<nat>)
    ensures s.wraps.Keys <= Rotate(s, landed).0.wraps.Keys
  {
    WrapsGrow(s, s.maxEpoch + 1, s.minted, Landed(Authorized(s, s.joined), landed));
  }

  lemma PublishAndRotateGrows(s: Team, members: Option<set<Member>>, strictness: Strictness, shouldRotate: bool,
                              io: Faults)
    ensures s.wraps.Keys <= PublishAndRotate(s, members, strictness, shouldRotate, io).0.wraps.Keys
  {
    RotateGrows(if members.Some? then Publish(s, members.value) else s, io.putsLanded);
  }

  lemma WrapsOnlyGrow(s: Team, c: Command)
    ensures s.wraps.Keys <= Next(s, c).0.wraps.Keys
  {
    match c
    case RotateCommand(members, io) => PublishAndRotateGrows(s, members, Strict, true, io);
    case RemoveCommand(t, io) =>
      if PlanRemoval(s, t).PublishStep? {
        PublishAndRotateGrows(s, Some(PlanRemoval(s, t).remaining), Tolerant, true, io);
      }
    case Provision(epoch, io) =>
      if FounderKey(s, epoch).Some? {
        WrapsGrow(s, epoch, FounderKey(s, epoch).value, Landed(Authorized(s, s.joined), io.putsLanded));
      }
    case _ =>
  }

  /** Over every run no wrap is removed and the newest published epoch never falls. */
  lemma {:induction false} EpochsNeverDecrease(s: Team, cs: seq<Command>)
    ensures s.wraps.Keys <= After(s, cs).wraps.Keys
    ensures forall d, e :: IsHighest(s, d) && IsHighest(After(s, cs), e) ==> d <= e
  {
    if cs != [] {
      var before := cs[..|cs| - 1];
      EpochsNeverDecrease(s, before);
      WrapsOnlyGrow(After(s, before), cs[|cs| - 1]);
    }
    HighestGrows(s, After(s, cs));
  }

  lemma HighestGrows(s: Team, t: Team)
    requires s.wraps.Keys <= t.wraps.Keys
    ensures forall d, e :: IsHighest(s, d) && IsHighest(t, e) ==> d <= e
  {
    forall d: nat, e: nat | IsHighest(s, d) && IsHighest(t, e) ensures d <= e {
      var m :| (d, m) in s.wraps;
      assert (d, m) in t.wraps;
    }
  }

  /** Wrapping to roster members leaves no member half-done who was not. */
  lemma WrapClean(s: Team, epoch: nat, key: Key, who: seq<Member>, m: Member)
    requires forall w :: w in who ==> MayHold(s, w)
    requires HalfDone(WrapAll(s, epoch, key, who), m)
    ensures HalfDone(s, m)
  {
    var t := WrapAll(s, epoch, key, who);
    GateUnmoved(s, epoch, key, who);
    var e: nat :| IsHighest(t, e) && (e, m) in t.wraps;
    WrapAllMeans(s, epoch, key, who, e, m);
    WrapsGrow(s, epoch, key, who);
    assert IsHighest(s, e);
  }

  lemma RotateClean(s: Team, landed: Option<nat>, m: Member)
    requires HalfDone(Rotate(s, landed).0, m)
    ensures HalfDone(s, m)
  {
    var who := Landed(Authorized(s, s.joined), landed);
    forall w | w in who ensures MayHold(s, w) { LandedAreAuthorized(s, landed, w); }
    var t := WrapAll(s, s.maxEpoch + 1, s.minted, who);
    if Rotate(s, landed).0 != s {
      var e: nat :| IsHighest(Rotate(s, landed).0, e) && (e, m) in t.wraps;
      assert IsHighest(t, e);
      WrapClean(s, s.maxEpoch + 1, s.minted, who, m);
    }
  }

  lemma CleanStaysClean(s: Team, landed: Option<nat>)
    requires Clean(s)
    ensures Clean(Rotate(s, landed).0)
  {
    var f := Rotate(s, landed).0;
    forall m: Member ensures !HalfDone(f, m) { if HalfDone(f, m) { RotateClean(s, landed, m); } }
  }

  lemma CurrentRotationCleans(s: Team, landed: Option<nat>, m: Member)
    requires s.roster.Some? && Rotate(s, landed).1.Rotated? && MaxEpochCurrent(s)
    ensures !HalfDone(Rotate(s, landed).0, m)
  {
    var f, who, epoch := Rotate(s, landed).0, Authorized(s, s.joined), s.maxEpoch + 1;
    var t := WrapAll(s, epoch, s.minted, who);
    GateUnmoved(s, epoch, s.minted, who);
    NewestWins(s, epoch, s.minted, who);
    SameWraps(t, f, m);
    AuthorizedMeans(s, s.joined, m);
    WrapAllMeans(s, epoch, s.minted, who, epoch, m);
  }

  lemma StaleRotationLeaves(s: Team, landed: Option<nat>, m: Member)
    requires s.roster.Some? && Rotate(s, landed).1.Rotated? && !MaxEpochCurrent(s) && HalfDone(s, m)
    ensures HalfDone(Rotate(s, landed).0, m)
  {
    var who, epoch := Authorized(s, s.joined), s.maxEpoch + 1;
    var t := WrapAll(s, epoch, s.minted, who);
    GateUnmoved(s, epoch, s.minted, who);
    var e: nat :| IsHighest(s, e) && (e, m) in s.wraps;
    StaleLeaves(s, epoch, s.minted, who, e, m);
    assert HalfDone(t, m);
    SameWraps(t, Rotate(s, landed).0, m);
  }

  /** A successful rotation clears every half-done member exactly when `max_epoch` was current or
      the newest wraps already were the roster's. */
  lemma RotationClears(s: Team, landed: Option<nat>)
    requires s.roster.Some? && Rotate(s, landed).1.Rotated?
    ensures Clean(Rotate(s, landed).0) <==> (MaxEpochCurrent(s) || Clean(s))
  {
    if Clean(s) {
      CleanStaysClean(s, landed);
    } else if MaxEpochCurrent(s) {
      forall m: Member ensures !HalfDone(Rotate(s, landed).0, m) { CurrentRotationCleans(s, landed, m); }
    } else {
      var m: Member :| HalfDone(s, m);
      StaleRotationLeaves(s, landed, m);
    }
  }

  lemma NewestWins(s: Team, epoch: nat, key: Key, who: seq<Member>)
    requires who != [] && forall e, m :: (e, m) in s.wraps ==> e < epoch
    ensures forall e :: IsHighest(WrapAll(s, epoch, key, who), e) ==> e == epoch
  {
    var t := WrapAll(s, epoch, key, who);
    forall e: nat | IsHighest(t, e) ensures e == epoch {
      var m :| (e, m) in t.wraps;
      WrapAllMeans(s, epoch, key, who, e, m);
      WrapAllMeans(s, epoch, key, who, epoch, who[0]);
    }
  }

  lemma StaleLeaves(s: Team, epoch: nat, key: Key, who: seq<Member>, e: nat, m: Member)
    requires IsHighest(s, e) && (e, m) in s.wraps && epoch <= e
    ensures var t := WrapAll(s, epoch, key, who); IsHighest(t, e) && (e, m) in t.wraps
  {
    var t := WrapAll(s, epoch, key, who);
    WrapsGrow(s, epoch, key, who);
    forall d, n | (d, n) in t.wraps ensures d <= e { WrapAllMeans(s, epoch, key, who, d, n); }
  }

  /** A member becomes half-done only by a publish whose rotation did not complete, or completed
      below the epochs already published. */
  lemma HalfDoneArises(s: Team, c: Command, m: Member)
    requires !HalfDone(s, m) && HalfDone(Next(s, c).0, m)
    ensures s.roster.Some? ==> m in s.roster.value
    ensures c.PublishCommand? || (c.RotateCommand? && c.republish.Some?)
            || (c.RemoveCommand? && s.roster.Some? && c.target in s.roster.value && c.target != s.founder)
    ensures !c.io.publishFails
    ensures Next(s, c).1.Rotated? ==> !MaxEpochCurrent(s)
  {
    match c
    case RotateCommand(members, io) =>
      var p := if members.Some? && !io.publishFails then Publish(s, members.value) else s;
      RotateClean(p, io.putsLanded, m);
      if Next(s, c).1.Rotated? { RotationClears(p, io.putsLanded); }
    case RemoveCommand(t, io) =>
      if PlanRemoval(s, t).PublishStep? && !io.publishFails {
        var p := Publish(s, PlanRemoval(s, t).remaining);
        RotateClean(p, io.putsLanded, m);
        if Next(s, c).1.Rotated? { RotationClears(p, io.putsLanded); }
      }
    case Provision(epoch, io) =>
      if FounderKey(s, epoch).Some? {
        var who := Landed(Authorized(s, s.joined), io.putsLanded);
        forall w | w in who ensures MayHold(s, w) { LandedAreAuthorized(s, io.putsLanded, w); }
        WrapClean(s, epoch, FounderKey(s, epoch).value, who, m);
      }
    case SetMaxEpoch(n) => assert false by { SameWraps(s, Next(s, c).0, m); }
    case Join(_) => assert false by { SameWraps(s, Next(s, c).0, m); }
    case HandBundle(_) => assert false by { SameWraps(s, Next(s, c).0, m); }
    case PublishCommand(_, _) =>
  }

  lemma SameWraps(s: Team, t: Team, m: Member)
    requires s.wraps == t.wraps && s.roster == t.roster
    ensures HalfDone(s, m) <==> HalfDone(t, m)
  {
    assert forall e :: IsHighest(s, e) <==> IsHighest(t, e);
  }

  // ---------------------------------------------------------------- 64-bit epochs

  const MAX_BOOTSTRAP_EPOCH := 1024

  /** The configuration accepts no higher maximum. */
  predicate Accepted(c: Command) { c.SetMaxEpoch? ==> c.epoch <= MAX_BOOTSTRAP_EPOCH }

  lemma NextMaxEpoch(s: Team, c: Command)
    ensures Next(s, c).0.maxEpoch == if c.SetMaxEpoch? then c.epoch else s.maxEpoch
  {
    forall t: Team, epoch: nat, key: Key, who: seq<Member> ensures WrapAll(t, epoch, key, who).maxEpoch == t.maxEpoch {
      GateUnmoved(t, epoch, key, who);
    }
  }

  lemma {:induction false} MaximaStayInRange(s: Team, cs: seq<Command>)
    requires s.maxEpoch <= MAX_BOOTSTRAP_EPOCH && forall c :: c in cs ==> Accepted(c)
    ensures After(s, cs).maxEpoch <= MAX_BOOTSTRAP_EPOCH
  {
    if cs != [] {
      var n := |cs| - 1;
      assert cs[n] in cs;
      MaximaStayInRange(s, cs[..n]);
      NextMaxEpoch(After(s, cs[..n]), cs[n]);
    }
  }

  lemma RotatedEpoch(s: Team, landed: Option<nat>)
    ensures Rotate(s, landed).1.Rotated? ==> Rotate(s, landed).1.epoch == s.maxEpoch + 1
  {
  }

  /** So over every run a rotation's epoch stays far below 2^64, where the source's addition saturates. */
  lemma EpochsStayInRange(s: Team, cs: seq<Command>, landed: Option<nat>)
    requires s.maxEpoch <= 1024 && forall c :: c in cs ==> (c.SetMaxEpoch? ==> c.epoch <= 1024)
    ensures After(s, cs).maxEpoch <= 1024
    ensures Rotate(After(s, cs), landed).1.Rotated? ==> Rotate(After(s, cs), landed).1.epoch <= 1025
  {
    MaximaStayInRange(s, cs);
    RotatedEpoch(After(s, cs), landed);
  }

  // ---------------------------------------------------------------- strict and tolerant

  /** Strict and tolerant mode differ only in reporting a rotation that had nobody to wrap to. */
  lemma ModesDifferInReport(s: Team, members: Option<set<Member>>, shouldRotate: bool, io: Faults)
    ensures var a, b := PublishAndRotate(s, members, Strict, shouldRotate, io),
            PublishAndRotate(s, members, Tolerant, shouldRotate, io);
            && a.0 == b.0 && a.1 != Pending
            && b.1 == if a.1 == NothingToRotate then Pending else a.1
  {
  }

  /** A command with the mode it would run in chosen freely. */
  function NextIn(s: Team, c: Command, mode: Strictness): (Team, Outcome) {
    match c
    case RotateCommand(members, io) => PublishAndRotate(s, members, mode, true, io)
    case RemoveCommand(t, io) =>
      if PlanRemoval(s, t).PublishStep? then PublishAndRotate(s, Some(PlanRemoval(s, t).remaining), mode, true, io)
        else Next(s, c)
    case _ => Next(s, c)
  }

  function AfterIn(s: Team, cs: seq<Command>, modes: seq<Strictness>): Team
    requires |modes| == |cs|
  {
    if cs == [] then s else NextIn(AfterIn(s, cs[..|cs| - 1], modes[..|cs| - 1]), cs[|cs| - 1], modes[|cs| - 1]).0
  }

  /** Whatever mode each command of a run is given, the run reaches the same team. */
  lemma {:induction false} ModesReachTheSame(s: Team, cs: seq<Command>, modes: seq<Strictness>)
    requires |modes| == |cs|
    ensures AfterIn(s, cs, modes) == After(s, cs)
  {
    if cs != [] {
      var n := |cs| - 1;
      ModesReachTheSame(s, cs[..n], modes[..n]);
      SameTeam(After(s, cs[..n]), cs[n], modes[n]);
    }
  }

  lemma SameTeam(s: Team, c: Command, mode: Strictness)
    ensures NextIn(s, c, mode).0 == Next(s, c).0
  {
    match c
    case RotateCommand(members, io) => ModesDifferInReport(s, members, true, io);
    case RemoveCommand(t, io) =>
      if PlanRemoval(s, t).PublishStep? {
        ModesDifferInReport(s, Some(PlanRemoval(s, t).remaining), true, io);
      }
    case _ =>
  }

  /** What `provision` publishes: each joined member the roster lets through gets the key the founder has
      at that epoch, the team's first key at epoch zero without a wrap, and nobody gets anything at a
      later epoch that the founder has no wrap of. */
  lemma ProvisionGives(s: Team, epoch: nat, m: Member)
    ensures var t, own := Next(s, Provision(epoch, Faults(false, None))).0, (epoch, s.founder);
            && t.roster == s.roster && t.minted == s.minted
            && (own !in s.wraps && epoch > 0 ==> t == s)
            && (m in s.joined && (if s.roster.Some? then m in s.roster.value else !s.pinned) ==>
                  && (own in s.wraps ==> (epoch, m) in t.wraps && t.wraps[(epoch, m)] == s.wraps[own])
                  && (own !in s.wraps && epoch == 0 ==> (0, m) in t.wraps && t.wraps[(0, m)] == 0))
  {
    if FounderKey(s, epoch).Some? {
      var key, who := FounderKey(s, epoch).value, Authorized(s, s.joined);
      AuthorizedMeans(s, s.joined, m);
      WrapAllMeans(s, epoch, key, who, epoch, m);
      GateUnmoved(s, epoch, key, who);
    }
  }

  // ---------------------------------------------------------------- the ring of one process

  predicate CanUnwrap(s: Team, m: Member, e: nat) { e <= s.maxEpoch && (e, m) in s.wraps }

  /** The newest epoch of a ring, zero for none. */
  ghost predicate IsNewest(ring: map<nat, Key>, e: nat) {
    (ring == map[] ==> e == 0) && (ring != map[] ==> e in ring) && forall d :: d in ring ==> d <= e
  }

  /** `bootstrap_epochs`: every epoch up to the configured maximum whose wrap `m` can open joins the
      ring, and the write epoch moves up to the newest, never down. */
  method BootstrapEpochs(s: Team, m: Member, configured: map<nat, Key>, current: nat)
    returns (ring: map<nat, Key>, write: nat)
    ensures ring.Keys == configured.Keys + set e | 0 <= e <= s.maxEpoch && CanUnwrap(s, m, e)
    ensures forall e :: e in ring ==> ring[e] == if CanUnwrap(s, m, e) then s.wraps[(e, m)] else configured[e]
    ensures forall top: nat :: IsNewest(ring, top) ==> write == if top > current then top else current
  {
    ring := configured;
    for e := 0 to s.maxEpoch + 1
      invariant ring.Keys == configured.Keys + set d | 0 <= d < e && CanUnwrap(s, m, d)
      invariant forall d :: d in ring ==>
                ring[d] == if d < e && CanUnwrap(s, m, d) then s.wraps[(d, m)] else configured[d]
    {
      if (e, m) in s.wraps { ring := ring[e := s.wraps[(e, m)]]; }
    }
    var top := NewestOf(ring);
    write := if top > current then top else current;
  }

  method NewestOf(ring: map<nat, Key>) returns (top: nat)
    ensures IsNewest(ring, top)
  {
    top := 0;
    var rest, seen := ring.Keys, false;
    while rest != {}
      invariant rest <= ring.Keys && (seen <==> rest != ring.Keys)
      invariant if seen then top in ring else top == 0
      invariant forall d :: d in ring && d !in rest ==> d <= top
      decreases rest
    {
      var e :| e in rest;
      if !seen || e > top { top := e; }
      rest, seen := rest - {e}, true;
    }
  }

  /** A ring bootstrapped from the founding key reaches no higher than the configured maximum, so that
      maximum is the floor a rotation starts from. */
  lemma FloorIsMaxEpoch(s: Team, m: Member, configured: map<nat, Key>, ring: map<nat, Key>, top: nat)
    requires configured.Keys <= {0} && ring.Keys == configured.Keys + set e | 0 <= e <= s.maxEpoch && CanUnwrap(s, m, e)
    requires IsNewest(ring, top)
    ensures top <= s.maxEpoch
  {
  }

  /** Once the operators raise the maximum to a rotation's epoch, every joined member of the roster
      writes under that epoch and its new key, and a member off the roster that was not wrapped there
      does not. */
  lemma WritersFollowRotation(s: Team, landed: Option<nat>, f: Team, m: Member, ring: map<nat, Key>, top: nat)
    requires Rotate(s, landed).1.Rotated? && s.roster.Some? && f == Rotate(s, landed).0.(maxEpoch := s.maxEpoch + 1)
    requires ring.Keys == {0} + set e | 0 <= e <= f.maxEpoch && CanUnwrap(f, m, e)
    requires forall e :: e in ring && CanUnwrap(f, m, e) ==> ring[e] == f.wraps[(e, m)]
    requires IsNewest(ring, top)
    ensures m in s.joined && m in s.roster.value ==> top == s.maxEpoch + 1 && ring[top] == s.minted
    ensures m !in s.roster.value && (s.maxEpoch + 1, m) !in s.wraps ==> top <= s.maxEpoch
  {
    var who, epoch := Authorized(s, s.joined), s.maxEpoch + 1;
    GateUnmoved(s, epoch, s.minted, who);
    AuthorizedMeans(s, s.joined, m);
    WrapAllMeans(s, epoch, s.minted, who, epoch, m);
    assert f.wraps == WrapAll(s, epoch, s.minted, who).wraps;
    assert epoch in ring <==> CanUnwrap(f, m, epoch);
  }

  // ---------------------------------------------------------------- a lagging maximum

  const FINE := Faults(false, None)

  /** Joins, a publish and a rotation of a team of two whose maximum nobody raised. */
  function LaggingTeam(): Team {
    Team(0, false, Some({0, 1}), [0, 1], map[(1, 0) := 1, (1, 1) := 1], {(0, 0), (1, 0), (1, 1)}, 2, 0)
  }

  lemma WrapOne(s: Team, epoch: nat, key: Key, who: seq<Member>)
    requires |who| == 1
    ensures WrapAll(s, epoch, key, who) == Wrap(s, epoch, key, who[0])
  {
    var front := who[..|who| - 1];
    assert front == [] && WrapAll(s, epoch, key, front) == s;
  }

  lemma WrapLast(s: Team, epoch: nat, key: Key, who: seq<Member>)
    requires |who| == 2
    ensures WrapAll(s, epoch, key, who) == Wrap(Wrap(s, epoch, key, who[0]), epoch, key, who[1])
  {
    WrapOne(s, epoch, key, who[..|who| - 1]);
  }

  lemma WrapTwo(s: Team, epoch: nat, key: Key, a: Member, b: Member)
    ensures WrapAll(s, epoch, key, [a]) == Wrap(s, epoch, key, a)
    ensures WrapAll(s, epoch, key, [a, b]) == Wrap(Wrap(s, epoch, key, a), epoch, key, b)
  {
    WrapOne(s, epoch, key, [a]);
    WrapLast(s, epoch, key, [a, b]);
  }

  lemma AuthorizedTwo(s: Team, a: Member, b: Member)
    ensures Authorized(s, [a, b]) == (if MayHold(s, a) then [a] else []) + (if MayHold(s, b) then [b] else [])
  {
    assert [a][..0] == [] && [a, b][..1] == [a];
    assert Authorized(s, [a]) == if MayHold(s, a) then [a] else [];
  }

  lemma AfterPush(s: Team, cs: seq<Command>, c: Command)
    ensures After(s, cs + [c]) == Next(After(s, cs), c).0
  {
    assert (cs + [c])[..|cs|] == cs;
  }

  lemma AfterFour(s: Team, a: Command, b: Command, c: Command, d: Command)
    ensures After(s, [] + [a] + [b] + [c] + [d]) == Next(Next(Next(Next(s, a).0, b).0, c).0, d).0
  {
    AfterPush(s, [], a);
    AfterPush(s, [] + [a], b);
    AfterPush(s, [] + [a] + [b], c);
    AfterPush(s, [] + [a] + [b] + [c], d);
  }

  /** A new team gets there. */
  lemma LaggingTeamIsReached() returns (s: Team, cs: seq<Command>)
    ensures Founded(s) && After(s, cs) == LaggingTeam()
  {
    s := Team(0, false, None, [], map[], {(0, 0)}, 1, 0);
    var publish, rotate := PublishCommand({0, 1}, FINE), RotateCommand(None, FINE);
    cs := [] + [Join(0)] + [Join(1)] + [publish] + [rotate];
    AfterFour(s, Join(0), Join(1), publish, rotate);
    FirstPublish(s);
    FirstRotation(s.(joined := [0, 1], roster := Some({0, 1})));
  }

  lemma FirstPublish(s: Team)
    requires s == Team(0, false, None, [], map[], {(0, 0)}, 1, 0)
    ensures Next(Next(Next(s, Join(0)).0, Join(1)).0, PublishCommand({0, 1}, FINE)).0 ==
            s.(joined := [0, 1], roster := Some({0, 1}))
  {
    assert {0, 1} + {0} == {0, 1};
    assert Next(s, Join(0)).0 == s.(joined := [0]);
    assert Next(s.(joined := [0]), Join(1)).0 == s.(joined := [0, 1]);
  }

  lemma RotateAll(s: Team, who: seq<Member>)
    requires s.roster.Some? && who == Authorized(s, s.joined) && who != []
    ensures Rotate(s, None) ==
            (WrapAll(s, s.maxEpoch + 1, s.minted, who).(minted := s.minted + 1), Rotated(s.maxEpoch + 1))
  {
  }

  lemma RotateTwo(s: Team, a: Member, b: Member)
    requires s.joined == [a, b] && s.roster.Some? && MayHold(s, a) && MayHold(s, b)
    ensures Rotate(s, None) ==
            (Wrap(Wrap(s, s.maxEpoch + 1, s.minted, a), s.maxEpoch + 1, s.minted, b).(minted := s.minted + 1),
              Rotated(s.maxEpoch + 1))
  {
    AuthorizedTwo(s, a, b);
    RotateAll(s, [a, b]);
    WrapTwo(s, s.maxEpoch + 1, s.minted, a, b);
  }

  lemma FirstRotation(t: Team)
    requires t == Team(0, false, Some({0, 1}), [0, 1], map[], {(0, 0)}, 1, 0)
    ensures Rotate(t, None) == (LaggingTeam(), Rotated(1))
  {
    RotateTwo(t, 0, 1);
    assert t.given + {(1, 0)} + {(1, 1)} == LaggingTeam().given;
  }

  /** There a removal reports success, re-mints epoch 1, and leaves the removed member in the newest
      wraps. */
  lemma LaggingRemovalLeavesWrap()
    ensures var (f, out) := Remove(LaggingTeam(), 1, FINE);
            out == Rotated(1) && OffRoster(f, 1) && (1, 1) in f.wraps && HalfDone(f, 1)
  {
    var s := LaggingTeam();
    assert {0, 1} - {1} == {0} && {0} + {0} == {0};
    var p := Publish(s, {0});
    AuthorizedTwo(p, 0, 1);
    WrapTwo(p, 1, 2, 0, 1);
    var f := Remove(s, 1, FINE).0;
    assert f.wraps == map[(1, 0) := 2, (1, 1) := 1];
    assert IsHighest(f, 1) by { assert (1, 1) in f.wraps; }
  }

  // ---------------------------------------------------------------- on the roster and the wraps

  /** Who is on the roster after `remove t`: everyone who was, but `t`, if `t` was listed, is not the
      founder and the publish landed; in every other case nothing changed. */
  lemma RosterAfterRemoval(s: Team, t: Member, io: Faults)
    requires Sound(s)
    ensures Remove(s, t, io).0.roster ==
            if s.roster.Some? && t in s.roster.value && t != s.founder && !io.publishFails
            then Some(s.roster.value - {t}) else s.roster
  {
    if PlanRemoval(s, t).PublishStep? && !io.publishFails {
      var p := Publish(s, PlanRemoval(s, t).remaining);
      assert s.roster.value - {t} + {s.founder} == s.roster.value - {t};
      GateUnmoved(p, p.maxEpoch + 1, p.minted, Landed(Authorized(p, p.joined), io.putsLanded));
    }
  }

  /** The roster after any other command: the published members with the founder, or as it was. */
  lemma RosterAfterCommand(s: Team, c: Command)
    requires !c.RemoveCommand?
    ensures Next(s, c).0.roster ==
            if c.PublishCommand? && !c.io.publishFails then Some(c.members + {s.founder})
            else if c.RotateCommand? && c.republish.Some? && !c.io.publishFails
            then Some(c.republish.value + {s.founder})
            else s.roster
  {
    match c
    case RotateCommand(members, io) =>
      var p := if members.Some? then Publish(s, members.value) else s;
      GateUnmoved(p, p.maxEpoch + 1, p.minted, Landed(Authorized(p, p.joined), io.putsLanded));
    case Provision(epoch, io) =>
      if FounderKey(s, epoch).Some? {
        GateUnmoved(s, epoch, FounderKey(s, epoch).value, Landed(Authorized(s, s.joined), io.putsLanded));
      }
    case _ =>
  }

  /** How a removal ends. */
  lemma RemovalEnds(s: Team, t: Member, io: Faults)
    requires Sound(s)
    ensures var (f, out) := Remove(s, t, io);
            if s.roster == None then out == OpenTeam && f == s
            else if t == s.founder then out == TargetIsFounder && f == s
            else if t !in s.roster.value then out == AlreadyExcluded && f == s
            else if io.publishFails then out == StorageFailed && f == s
            else
              var joined := set m | m in s.joined && m in s.roster.value && m != t;
              if joined == {} then out == Pending && f == s.(roster := Some(s.roster.value - {t}))
              else out == Rotated(s.maxEpoch + 1) || (out == StorageFailed && io.putsLanded.Some?)
  {
    if s.roster.Some? && t != s.founder && t in s.roster.value && !io.publishFails {
      var p := Publish(s, s.roster.value - {t});
      assert s.roster.value - {t} + {s.founder} == s.roster.value - {t};
      var who := Authorized(p, p.joined);
      var joined := set m | m in s.joined && m in s.roster.value && m != t;
      if who != [] {
        AuthorizedMeans(p, p.joined, who[0]);
        assert who[0] in joined;
      }
      if joined != {} {
        var m :| m in joined;
        AuthorizedMeans(p, p.joined, m);
      }
    }
  }

  /** Who is wrapped to by a rotation: beside what there was, only joined members on the roster, or any
      joined member of a team without roster or pinned founder; all of them if the puts all land, and
      under one key nobody held. Nothing is wrapped where a roster is expected and not found. */
  lemma RotationWraps(s: Team, landed: Option<nat>, e: nat, m: Member)
    requires Sound(s)
    ensures var (f, out), may := Rotate(s, landed),
            m in s.joined && (if s.roster.Some? then m in s.roster.value else !s.pinned);
            && ((e, m) in f.wraps ==> (e, m) in s.wraps || (e == s.maxEpoch + 1 && may))
            && ((e, m) in s.wraps ==> (e, m) in f.wraps)
            && ((e, m) in f.wraps && e != s.maxEpoch + 1 ==> f.wraps[(e, m)] == s.wraps[(e, m)])
            && (out.Rotated? && may ==> (s.maxEpoch + 1, m) in f.wraps && f.wraps[(s.maxEpoch + 1, m)] == s.minted)
            && (out.Rotated? || out == StorageFailed ==> f.minted == s.minted + 1 && (s.minted, m) !in s.given)
            && (out.Rotated? || out == StorageFailed || f == s)
            && (landed == None ==> out != StorageFailed)
            && (s.roster == None && s.pinned ==> out == ManifestUnavailable)
            && (landed == None && may && !(s.roster == None && s.pinned) ==> out == Rotated(s.maxEpoch + 1))
  {
    var who := Authorized(s, s.joined);
    AuthorizedMeans(s, s.joined, m);
    WrapAllMeans(s, s.maxEpoch + 1, s.minted, Landed(who, landed), e, m);
    WrapAllMeans(s, s.maxEpoch + 1, s.minted, Landed(who, landed), s.maxEpoch + 1, m);
  }
}
