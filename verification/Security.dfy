/** Generated authorizations: how many live clients use each, and the timer that ends the unused ones. */
module Security {
  import opened CTypes

  type XID = nat
  type ClientId = nat

  const NO_AUTH: XID := 0
  const MILLI_PER_SECOND := 1000

  /** The number of full seconds that fit in 32 bits of milliseconds. */
  const MAX_SECS: nat := 4294967

  datatype Timer = NoTimer | Idle | Armed(delay: nat)

  datatype Phase = Initial | Running | Retained | Gone
  datatype CloseDownMode = DestroyAll | RetainPermanent | RetainTemporary

  /** How a mode is written in a request. */
  function Mode(mode: nat): CloseDownMode {
    if mode == 0 then DestroyAll else if mode == 1 then RetainPermanent else RetainTemporary
  }

  class Authorization {
    const id: XID
    const timeout: nat
    const trustLevel: nat
    var refcnt: nat
    var secondsRemaining: nat
    var timer: Timer

    constructor (id: XID, timeout: nat, trustLevel: nat)
      ensures this.id == id && this.timeout == timeout && this.trustLevel == trustLevel
      ensures refcnt == 0 && secondsRemaining == 0 && timer == NoTimer
    {
      this.id, this.timeout, this.trustLevel := id, timeout, trustLevel;
      refcnt, secondsRemaining, timer := 0, 0, NoTimer;
    }
  }

  class Client {
    const index: ClientId
    var phase: Phase
    var closeDownMode: CloseDownMode
    var clientGone: bool
    var haveState: bool
    var live: bool
    var authId: XID
    var trustLevel: nat

    constructor (index: ClientId)
      ensures this.index == index && phase == Initial && closeDownMode == DestroyAll && !clientGone
      ensures !haveState && !live && authId == NO_AUTH
    {
      this.index, phase, closeDownMode, clientGone := index, Initial, DestroyAll, false;
      haveState, live, authId, trustLevel := false, false, NO_AUTH, 0;
    }
  }

  // ----- The chain of delays -----

  /** One delay, and the seconds left over after it. */
  function FirstDelay(seconds: nat): nat {
    if seconds > MAX_SECS then MAX_SECS * MILLI_PER_SECOND else seconds * MILLI_PER_SECOND
  }

  /** All delays that a timeout is split into. */
  function Delays(seconds: nat): seq<nat> {
    if seconds > MAX_SECS then [FirstDelay(seconds)] + Delays(seconds - MAX_SECS) else [FirstDelay(seconds)]
  }

  function Sum(s: seq<nat>): nat {
    if s == [] then 0 else s[0] + Sum(s[1..])
  }

  /** The delays add up to the timeout, and each fits in 32 bits and is not zero unless the timeout is. */
  lemma {:induction false} DelaysAddUp(seconds: nat)
    ensures Sum(Delays(seconds)) == MILLI_PER_SECOND * seconds
    ensures forall i :: 0 <= i < |Delays(seconds)| ==> Delays(seconds)[i] < 0x1_0000_0000
    ensures seconds > 0 ==> forall i :: 0 <= i < |Delays(seconds)| ==> Delays(seconds)[i] > 0
  {
    if seconds > MAX_SECS {
      DelaysAddUp(seconds - MAX_SECS);
      assert Delays(seconds)[1..] == Delays(seconds - MAX_SECS);
    } else {
      assert Delays(seconds)[1..] == [];
    }
  }

  /** TimerSet runs a timer at once when its delay, read as an int, is not positive. */
  predicate RunsAtOnce(delay: nat) {
    Int32(delay) <= 0
  }

  /** No delay of a timeout is cut short exactly when the timeout is below 2^31 milliseconds. */
  lemma NoneRunsAtOnce(seconds: nat)
    requires seconds > 0
    ensures (forall i :: 0 <= i < |Delays(seconds)| ==> !RunsAtOnce(Delays(seconds)[i])) <==> seconds <= 2147483
  {
    assert Delays(seconds)[0] == FirstDelay(seconds);
    if seconds <= MAX_SECS {
      assert |Delays(seconds)| == 1;
    }
  }

  /** The longest timeout whose milliseconds are a positive int. */
  const MAX_WAIT: nat := 2147483

  /** What becomes of a timer that is started: it waits (or is not needed), its authorization is freed at once, or the
      server stops in the assertion of SecurityAuthorizationExpired. */
  datatype Started = Waiting | Ended | AssertionFailed

  /** The seconds in the last delay of a timeout. */
  function LastSeconds(seconds: nat): (r: nat)
    ensures r <= MAX_SECS && r <= seconds && (seconds > 0 ==> r > 0)
    ensures seconds <= MAX_SECS <==> r == seconds
  {
    if seconds > MAX_SECS then LastSeconds(seconds - MAX_SECS) else seconds
  }

  /** A timeout of at most MAX_WAIT seconds waits. A longer one runs its first delay at once: the assertion that the
      authorization knows its timer fails if this is the first one, and otherwise all delays but the last are skipped,
      and the last one too if it is longer than MAX_WAIT. */
  function Fate(seconds: nat, known: bool, asserts: bool): Started {
    if seconds <= MAX_WAIT then Waiting
    else if !known && asserts then AssertionFailed
    else if LastSeconds(seconds) <= MAX_WAIT then Waiting
    else Ended
  }

  /** The first timeout that is too long, and the first one of more than one delay, which waits one second. */
  lemma TooLong()
    ensures Fate(2147483, false, true) == Waiting
    ensures Fate(2147484, false, true) == AssertionFailed && Fate(2147484, false, false) == Ended
    ensures Fate(4294968, false, false) == Waiting && LastSeconds(4294968) == 1
    ensures Fate(6442450, true, true) == Waiting && LastSeconds(6442450) == 2147483 && Fate(6442451, true, true) == Ended
    ensures RunsAtOnce(0) && !RunsAtOnce(1) && !RunsAtOnce(0x7FFF_FFFF) && RunsAtOnce(0x8000_0000)
  {}

  /** The state of a client as a value. */
  datatype View = View(live: bool, authId: XID, trustLevel: nat, phase: Phase, closeDownMode: CloseDownMode,
                       clientGone: bool)
  type Views = map<ClientId, View>
  type Counts = map<XID, int>

  /** The live clients that use an authorization. */
  ghost function LiveUsers(views: Views, id: XID): set<ClientId> {
    set c | c in views && views[c].live && views[c].authId == id
  }

  /** Each count is the number of live clients of the authorization. */
  ghost predicate Counted(counts: Counts, views: Views) {
    forall a :: a in counts ==> counts[a] == |LiveUsers(views, a)|
  }

  lemma UsersWith(views: Views, c: ClientId, v: View, a: XID)
    requires v.live && (c in views ==> !views[c].live)
    ensures c !in LiveUsers(views, a)
    ensures LiveUsers(views[c := v], a) == LiveUsers(views, a) + if a == v.authId then {c} else {}
  {}

  /** A client that was not live begins to use an authorization. */
  lemma Joined(counts: Counts, views: Views, c: ClientId, v: View)
    requires Counted(counts, views) && (c in views ==> !views[c].live) && v.live && v.authId in counts
    ensures Counted(counts[v.authId := counts[v.authId] + 1], views[c := v])
  {
    hide LiveUsers;
    forall a | a in counts
      ensures |LiveUsers(views[c := v], a)| == |LiveUsers(views, a)| + if a == v.authId then 1 else 0
    {
      UsersWith(views, c, v, a);
    }
  }

  /** A client that was not live still is not. */
  lemma Named(counts: Counts, views: Views, c: ClientId, v: View)
    requires Counted(counts, views) && (c in views ==> !views[c].live) && !v.live
    ensures Counted(counts, views[c := v])
  {
    forall a | a in counts ensures LiveUsers(views[c := v], a) == LiveUsers(views, a) {}
  }

  /** The counts after a user of authorization id, live or not, has left. */
  ghost function Decreased(counts: Counts, id: XID, live: bool): Counts {
    if id in counts && live then counts[id := counts[id] - 1] else counts
  }

  /** A client ceases to be a live user of its authorization, if it is one. */
  lemma Left(counts: Counts, views: Views, c: ClientId, v: View)
    requires Counted(counts, views) && c in views
    requires v.authId == views[c].authId && v.live == (views[c].live && v.authId !in counts)
    ensures Counted(Decreased(counts, v.authId, views[c].live), views[c := v])
  {
    var id, after := v.authId, views[c := v];
    if views[c].live && id in counts {
      assert c in LiveUsers(views, id);
      assert LiveUsers(after, id) == LiveUsers(views, id) - {c};
      forall a | a in counts && a != id ensures LiveUsers(after, a) == LiveUsers(views, a) {}
    } else {
      forall a | a in counts ensures LiveUsers(after, a) == LiveUsers(views, a) {}
    }
  }

  lemma UserCounted(counts: Counts, views: Views, c: ClientId)
    requires Counted(counts, views) && c in views && views[c].live && views[c].authId in counts
    ensures counts[views[c].authId] > 0
  {
    assert c in LiveUsers(views, views[c].authId);
  }

  /** Whether closing a client down ends it, or only retains its resources. */
  predicate ReallyCloseDown(v: View) {
    v.clientGone || v.closeDownMode == DestroyAll
  }

  /** A client that has been closed down; known tells that its authorization still is one. */
  function Departed(v: View, known: bool, phase: Phase): View {
    v.(live := v.live && !known, phase := phase, clientGone := true)
  }

  /** The clients once c has been closed down. */
  function ClosedDown(views: Views, c: ClientId, known: bool): Views
    requires c in views
  {
    if ReallyCloseDown(views[c]) then views - {c} else views[c := Departed(views[c], known, Retained)]
  }

  /** The clients once those below i that name an authorization, known no longer, have been closed down. */
  function ClosedBelow(views: Views, id: XID, i: nat): Views {
    map c | c in views && !(c < i && views[c].authId == id && ReallyCloseDown(views[c])) ::
      if c < i && views[c].authId == id then Departed(views[c], false, Retained) else views[c]
  }

  /** Client by client: those that name another authorization are as they were, and of the others exactly those stay
      that asked to be retained and were not closed down before. */
  lemma ClosedPerClient(views: Views, id: XID, n: nat)
    requires forall c :: c in views ==> c < n
    ensures forall c :: c in ClosedBelow(views, id, n) ==> c in views
    ensures forall c :: c in views && views[c].authId != id ==>
      c in ClosedBelow(views, id, n) && ClosedBelow(views, id, n)[c] == views[c]
    ensures forall c :: c in views && views[c].authId == id ==>
      && (c in ClosedBelow(views, id, n) <==>
            !views[c].clientGone && views[c].closeDownMode in {RetainPermanent, RetainTemporary})
      && (c in ClosedBelow(views, id, n) ==>
            ClosedBelow(views, id, n)[c].phase == Retained && ClosedBelow(views, id, n)[c].clientGone)
  {}

  lemma NoneClosed(views: Views, id: XID)
    requires forall c :: c in views ==> c > 0
    ensures ClosedBelow(views, id, 1) == views
  {}

  lemma AllClosed(views: Views, id: XID, i: nat, n: nat)
    requires i >= n && forall c :: c in views ==> c < n
    ensures ClosedBelow(views, id, i) == ClosedBelow(views, id, n)
  {}

  lemma OneMoreClosed(views: Views, id: XID, i: nat)
    ensures i in ClosedBelow(views, id, i) <==> i in views
    ensures i in views ==> ClosedBelow(views, id, i)[i] == views[i]
    ensures i in views && views[i].authId == id ==>
              ClosedBelow(views, id, i + 1) == ClosedDown(ClosedBelow(views, id, i), i, false)
    ensures !(i in views && views[i].authId == id) ==> ClosedBelow(views, id, i + 1) == ClosedBelow(views, id, i)
  {}

  /** The clients once those below i that were retained temporarily have been closed down again. */
  function TemporariesGone(views: Views, i: nat): Views {
    map c | c in views && !(c < i && views[c].closeDownMode == RetainTemporary && views[c].clientGone) :: views[c]
  }

  lemma GonePerClient(views: Views, n: nat)
    requires forall c :: c in views ==> c < n
    ensures forall c :: c in views ==>
      (c in TemporariesGone(views, n) <==> !(views[c].clientGone && views[c].closeDownMode == RetainTemporary))
  {}

  lemma NoneGone(views: Views)
    requires forall c :: c in views ==> c > 0
    ensures TemporariesGone(views, 1) == views
  {}

  lemma AllGone(views: Views, i: nat, n: nat)
    requires i >= n && forall c :: c in views ==> c < n
    ensures TemporariesGone(views, i) == TemporariesGone(views, n)
  {}

  lemma OneMoreGone(views: Views, i: nat, known: bool)
    ensures i in TemporariesGone(views, i) <==> i in views
    ensures i in views ==> TemporariesGone(views, i)[i] == views[i]
    ensures i in views && views[i].closeDownMode == RetainTemporary && views[i].clientGone ==>
              TemporariesGone(views, i + 1) == ClosedDown(TemporariesGone(views, i), i, known)
    ensures !(i in views && views[i].closeDownMode == RetainTemporary && views[i].clientGone) ==>
              TemporariesGone(views, i + 1) == TemporariesGone(views, i)
  {}

  /** What a client asks for changes no use of an authorization. */
  lemma ModeChanged(counts: Counts, views: Views, c: ClientId, mode: CloseDownMode)
    requires Counted(counts, views) && c in views
    ensures Counted(counts, views[c := views[c].(closeDownMode := mode)])
  {
    var after := views[c := views[c].(closeDownMode := mode)];
    forall a | a in counts ensures LiveUsers(after, a) == LiveUsers(views, a) {}
  }

  /** A client that uses no known authorization goes away. */
  lemma Forgotten(counts: Counts, views: Views, c: ClientId)
    requires Counted(counts, views) && c in views && (views[c].live ==> views[c].authId !in counts)
    ensures Counted(counts, views - {c})
  {
    forall a | a in counts ensures LiveUsers(views - {c}, a) == LiveUsers(views, a) {}
  }

  /** An authorization is dropped, or added under an id that no client names. */
  lemma Dropped(counts: Counts, views: Views, id: XID)
    requires Counted(counts, views)
    ensures Counted(counts - {id}, views)
    ensures (forall c :: c in views ==> views[c].authId != id) ==> Counted(counts[id := 0], views)
  {
    if forall c :: c in views ==> views[c].authId != id {
      assert LiveUsers(views, id) == {};
    }
  }

  /** A timer runs exactly while an authorization with a timeout has no users, and then with its last delay. */
  ghost predicate AuthOk(a: Authorization)
    reads a
  {
    && a.id != NO_AUTH && a.timeout < 0x1_0000_0000
    && (a.timeout == 0 ==> !a.timer.Armed?)
    && (a.timeout > 0 ==> a.timer != NoTimer && LastSeconds(a.timeout) <= MAX_WAIT && (a.timer.Armed? <==> a.refcnt == 0))
    && (a.timer.Armed? ==> a.secondsRemaining == 0 && a.timer == LastDelay(a.timeout))
  }

  function LastDelay(timeout: nat): Timer {
    Armed(MILLI_PER_SECOND * LastSeconds(timeout))
  }

  /** The last delay is the whole timeout exactly up to MAX_WAIT seconds, where the last one can wait at all. */
  lemma WholeTimeout(timeout: nat)
    requires LastSeconds(timeout) <= MAX_WAIT
    ensures MILLI_PER_SECOND * LastSeconds(timeout) == MILLI_PER_SECOND * timeout <==> timeout <= MAX_WAIT
  {}

  /** An authorization that has just lost its last user starts to wait. */
  ghost predicate Restarted(a: Authorization)
    reads a
  {
    a.refcnt == 0 && a.timeout > 0 ==> a.timer == LastDelay(a.timeout)
  }

  ghost predicate ClientOk(c: Client)
    reads c
  {
    && c.phase != Gone && c.haveState && (c.phase == Retained <==> c.clientGone)
    && (c.phase == Initial ==> !c.live && c.authId == NO_AUTH)
  }

  method ComputeAuthorizationTimeout(auth: Authorization, seconds: nat) returns (millis: nat)
    requires seconds < 0x1_0000_0000
    modifies auth`secondsRemaining
    ensures millis == Delays(seconds)[0] && millis < 0x1_0000_0000
    ensures millis + MILLI_PER_SECOND * auth.secondsRemaining == MILLI_PER_SECOND * seconds
    ensures auth.secondsRemaining > 0 ==> Delays(seconds) == [millis] + Delays(auth.secondsRemaining)
    ensures auth.secondsRemaining == 0 ==> Delays(seconds) == [millis]
    ensures seconds > 0 ==> auth.secondsRemaining < seconds && millis > 0
  {
    if seconds > MAX_SECS {
      auth.secondsRemaining := seconds - MAX_SECS;
      millis := MAX_SECS * MILLI_PER_SECOND;
    } else {
      auth.secondsRemaining := 0;
      millis := seconds * MILLI_PER_SECOND;
    }
  }

  /** The callback: the next delay, or the end of the authorization. */
  method SecurityAuthorizationExpired(auth: Authorization) returns (newTime: nat, over: bool)
    requires auth.secondsRemaining < 0x1_0000_0000
    modifies auth`secondsRemaining
    ensures over <==> old(auth.secondsRemaining) == 0
    ensures over ==> newTime == 0 && auth.secondsRemaining == 0
    ensures !over ==> Pending(old(auth.secondsRemaining), newTime, auth.secondsRemaining)
  {
    if auth.secondsRemaining != 0 {
      newTime := ComputeAuthorizationTimeout(auth, auth.secondsRemaining);
      over := false;
    } else {
      newTime, over := 0, true;
    }
  }

  /** A delay and the seconds that remain after it, of a number of seconds to wait. */
  predicate Pending(seconds: nat, millis: nat, remaining: nat) {
    && millis == FirstDelay(seconds) && seconds < 0x1_0000_0000
    && remaining == if seconds > MAX_SECS then seconds - MAX_SECS else 0
  }

  /** TimerSet, with the callback run inside it when the delay is not positive as an int; `seconds` is what the delay
      and the seconds remaining stand for. The delays that are set are those of the timeout, one after the other. */
  method TimerSet(auth: Authorization, millis: nat, known: bool, asserts: bool, ghost seconds: nat)
    returns (s: Started, ghost delays: seq<nat>)
    requires Pending(seconds, millis, auth.secondsRemaining)
    modifies auth`timer, auth`secondsRemaining
    ensures s == Fate(seconds, known, asserts)
    ensures s == Waiting ==> auth.secondsRemaining == 0 && auth.timer == if seconds == 0 then Idle else LastDelay(seconds)
    ensures s != AssertionFailed ==> delays == Delays(seconds)
    decreases seconds
  {
    delays := [millis];
    if millis == 0 {
      auth.timer := Idle;
      return Waiting, delays;
    }
    auth.timer := Armed(millis);
    if RunsAtOnce(millis) {
      auth.timer := Idle;
      if !known && asserts {
        return AssertionFailed, delays;
      }
      var newTime, over := SecurityAuthorizationExpired(auth);
      if over {
        return Ended, delays;
      }
      ghost var rest;
      s, rest := TimerSet(auth, newTime, known, asserts, seconds - MAX_SECS);
      delays := delays + rest;
      return;
    }
    s := Waiting;
  }

  /** Starts to wait for the timeout: what comes of it. */
  method StartAuthorizationTimer(auth: Authorization, asserts: bool) returns (s: Started)
    requires auth.timeout < 0x1_0000_0000
    modifies auth`secondsRemaining, auth`timer
    ensures s == Fate(auth.timeout, old(auth.timer) != NoTimer, asserts)
    ensures s == Waiting ==>
      && auth.secondsRemaining == 0
      && auth.timer == if auth.timeout == 0 then Idle else LastDelay(auth.timeout)
  {
    var known := auth.timer != NoTimer;
    var millis := ComputeAuthorizationTimeout(auth, auth.timeout);
    ghost var delays;
    s, delays := TimerSet(auth, millis, known, asserts, auth.timeout);
  }

  function ViewOf(c: Client): View
    reads c
  {
    View(c.live, c.authId, c.trustLevel, c.phase, c.closeDownMode, c.clientGone)
  }

  class Server {
    var auths: map<XID, Authorization>
    var clients: map<ClientId, Client>
    const maxClients: nat
    /** Whether assertions are compiled in. */
    const asserts: bool

    ghost function Objects(): set<object>
      reads this
    {
      (set a | a in auths :: auths[a]) + (set c | c in clients :: clients[c])
    }

    ghost function ViewsNow(): Views
      reads this, Objects()
    {
      map c | c in clients :: ViewOf(clients[c])
    }

    ghost function CountsNow(): Counts
      reads this, Objects()
    {
      map a | a in auths :: auths[a].refcnt
    }

    ghost predicate Filed()
      reads this
    {
      && (forall a :: a in auths ==> auths[a].id == a)
      && (forall c :: c in clients ==> clients[c].index == c && 0 < c < maxClients)
    }

    ghost predicate Valid()
      reads this, Objects()
    {
      && Filed() && Counted(CountsNow(), ViewsNow())
      && AuthsOk() && ClientsOk()
    }

    ghost predicate AuthsOk()
      reads this, Objects()
    {
      forall a :: a in auths ==> AuthOk(auths[a])
    }

    ghost predicate ClientsOk()
      reads this, Objects()
    {
      forall c :: c in clients ==> ClientOk(clients[c])
    }

    constructor (maxClients: nat, asserts: bool)
      ensures Valid() && auths == map[] && clients == map[]
      ensures this.maxClients == maxClients && this.asserts == asserts
    {
      auths, clients, this.maxClients, this.asserts := map[], map[], maxClients, asserts;
    }

    function Lookup(id: XID): (a: Authorization?)
      reads this`auths
    {
      if id in auths then auths[id] else null
    }

    /** The callback on every change of a client's state; idOfClient is what the client connected with. */
    method SecurityClientState(client: Client, idOfClient: XID)
      requires client.phase == Running ==> !client.live && (Lookup(idOfClient) != null ==> AuthOk(Lookup(idOfClient)))
      requires client.phase in {Retained, Gone} && Lookup(client.authId) != null ==>
                 AuthOk(Lookup(client.authId)) && (client.live ==> Lookup(client.authId).refcnt > 0)
      modifies client`live, client`authId, client`haveState, client`trustLevel
      modifies if client.phase == Initial then null else Lookup(if client.phase == Running then idOfClient else client.authId)
      ensures Lookup(client.authId) != null && client.phase != Initial ==> AuthOk(Lookup(client.authId))
      ensures client.phase == Initial ==>
                client.haveState && !client.live && client.authId == NO_AUTH && client.trustLevel == 0
      ensures client.phase == Running ==>
        && client.authId == idOfClient && client.live == (Lookup(idOfClient) != null)
        && (client.live ==> Lookup(idOfClient).refcnt == old(Lookup(idOfClient).refcnt) + 1)
        && client.trustLevel == (if client.live then Lookup(idOfClient).trustLevel else old(client.trustLevel))
      ensures client.phase in {Retained, Gone} ==>
        && client.authId == old(client.authId) && client.trustLevel == old(client.trustLevel)
        && client.live == (old(client.live) && Lookup(client.authId) == null)
        && (Lookup(client.authId) != null ==>
              Lookup(client.authId).refcnt == old(Lookup(client.authId).refcnt) - (if old(client.live) then 1 else 0))
      ensures client.phase in {Retained, Gone} && Lookup(client.authId) != null && old(client.live) ==>
                Restarted(Lookup(client.authId))
      ensures client.phase != Initial ==> client.haveState == old(client.haveState)
    {
      match client.phase
      case Initial =>
        client.trustLevel, client.authId, client.haveState, client.live := 0, NO_AUTH, true, false;
      case Running =>
        client.authId := idOfClient;
        var auth := Lookup(client.authId);
        if auth != null {
          auth.refcnt := auth.refcnt + 1;
          client.live := true;
          if auth.refcnt == 1 && auth.timer != NoTimer {
            auth.timer := Idle;
          }
          client.trustLevel := auth.trustLevel;
        }
      case _ =>
        var auth := Lookup(client.authId);
        if auth != null && client.live {
          auth.refcnt := auth.refcnt - 1;
          client.live := false;
          if auth.refcnt == 0 {
            var started := StartAuthorizationTimer(auth, asserts);
            assert started == Waiting;
          }
        }
    }

    twostate lemma ViewsStep(c: ClientId)
      requires clients == old(clients) && c in clients
      requires forall d :: d in clients && d != c ==> unchanged(clients[d])
      ensures ViewsNow() == old(ViewsNow())[c := ViewOf(clients[c])]
    {}

    twostate lemma CountsStep(id: XID)
      requires auths == old(auths)
      requires forall a :: a in auths && a != id ==> auths[a].refcnt == old(auths[a].refcnt)
      ensures CountsNow() == if id in auths then old(CountsNow())[id := auths[id].refcnt] else old(CountsNow())
    {}

    twostate lemma AuthsStep(id: XID)
      requires old(AuthsOk()) && auths == old(auths) && (id in auths ==> AuthOk(auths[id]))
      requires forall a :: a in auths && a != id ==> unchanged(auths[a])
      ensures AuthsOk()
    {}

    twostate lemma ClientsStep(c: ClientId)
      requires old(ClientsOk()) && clients == old(clients) && (c in clients ==> ClientOk(clients[c]))
      requires forall d :: d in clients && d != c ==> unchanged(clients[d])
      ensures ClientsOk()
    {}

    /** A connection is accepted. */
    method NewClient(c: ClientId)
      requires Valid() && c !in clients && 0 < c < maxClients
      modifies this`clients
      ensures Valid() && c in clients && fresh(clients[c]) && clients == old(clients)[c := clients[c]]
      ensures ViewsNow() == old(ViewsNow())[c := View(false, NO_AUTH, 0, Initial, DestroyAll, false)]
      ensures clients[c].closeDownMode == DestroyAll && !clients[c].clientGone && !clients[c].live && clients[c].authId == 0
    {
      hide Counted, ViewsNow, CountsNow, ClientsOk, AuthsOk;
      AuthIs(NO_AUTH);
      ClientIs(c);
      var client := new Client(c);
      clients := clients[c := client];
      SecurityClientState(client, NO_AUTH);
      ClientAdded(c);
      CountsStep(NO_AUTH);
      AuthsStep(NO_AUTH);
      Named(old(CountsNow()), old(ViewsNow()), c, ViewOf(client));
    }

    twostate lemma ClientAdded(c: ClientId)
      requires old(ClientsOk()) && c in clients && clients == old(clients)[c := clients[c]] && ClientOk(clients[c])
      requires forall d :: d in old(clients) && d != c ==> unchanged(old(clients[d]))
      ensures ClientsOk() && ViewsNow() == old(ViewsNow())[c := ViewOf(clients[c])]
    {}

    /** A client has connected with authorization id and begins to run. */
    method ClientRuns(c: ClientId, id: XID)
      requires Valid() && c in clients && clients[c].phase == Initial
      modifies Objects()
      ensures Valid() && Objects() == old(Objects())
      ensures var was := old(ViewsNow());
        ViewsNow() == was[c := was[c].(phase := Running, authId := id, live := id in auths,
                                       trustLevel := if id in auths then auths[id].trustLevel else was[c].trustLevel)]
      ensures CountsNow() == if id in auths then old(CountsNow())[id := old(CountsNow())[id] + 1] else old(CountsNow())
      ensures id in auths ==> !auths[id].timer.Armed?
    {
      hide Counted, ViewsNow, CountsNow, ClientsOk, AuthsOk;
      ClientIs(c);
      AuthIs(id);
      var client := clients[c];
      client.phase := Running;
      SecurityClientState(client, id);
      ViewsStep(c);
      CountsStep(id);
      AuthsStep(id);
      ClientsStep(c);
      if id in auths {
        Joined(old(CountsNow()), old(ViewsNow()), c, ViewOf(client));
      } else {
        Named(old(CountsNow()), old(ViewsNow()), c, ViewOf(client));
      }
    }

    lemma ClientIs(c: ClientId)
      requires ClientsOk()
      ensures c in clients ==>
        ClientOk(clients[c]) && c in ViewsNow() && ViewsNow()[c] == ViewOf(clients[c])
      ensures c in ViewsNow() ==> c in clients
    {}

    lemma AuthIs(a: XID)
      requires AuthsOk()
      ensures a in auths ==> AuthOk(auths[a]) && a in CountsNow() && CountsNow()[a] == auths[a].refcnt
      ensures a in CountsNow() ==> a in auths
    {}

    ghost predicate OthersOk(c: ClientId)
      reads this, Objects()
    {
      forall d :: d in clients && d != c ==> ClientOk(clients[d])
    }

    twostate lemma OthersStep(c: ClientId)
      requires old(ClientsOk()) && clients == old(clients)
      requires forall d :: d in clients && d != c ==> unchanged(clients[d])
      ensures OthersOk(c)
    {}

    /** A client is retained or gone: if it was a live user of an authorization, it is one no longer. */
    method Depart(c: ClientId, phase: Phase)
      requires Valid() && c in clients && phase in {Retained, Gone}
      modifies clients[c], Lookup(clients[c].authId)
      ensures Filed() && Counted(CountsNow(), ViewsNow()) && AuthsOk() && OthersOk(c)
      ensures clients[c].haveState
      ensures ViewsNow() == old(ViewsNow())[c := Departed(old(ViewsNow())[c], clients[c].authId in auths, phase)]
      ensures clients[c].authId == old(clients[c].authId)
      ensures CountsNow() == Decreased(old(CountsNow()), clients[c].authId, old(clients[c].live))
      ensures Lookup(clients[c].authId) != null && old(clients[c].live) ==> Restarted(Lookup(clients[c].authId))
    {
      hide Counted, ViewsNow, CountsNow, ClientsOk, AuthsOk, OthersOk;
      var client := clients[c];
      ghost var id, wasLive := client.authId, client.live;
      ClientIs(c);
      AuthIs(id);
      if client.live && id in auths {
        UserCounted(CountsNow(), ViewsNow(), c);
      }
      client.phase := phase;
      SecurityClientState(client, NO_AUTH);
      client.clientGone := true;
      ViewsStep(c);
      CountsStep(id);
      AuthsStep(id);
      OthersStep(c);
      Left(old(CountsNow()), old(ViewsNow()), c, ViewOf(client));
      SameCount(old(CountsNow()), id);
    }

    lemma SameCount(counts: Counts, id: XID)
      ensures id in counts ==> counts[id := counts[id]] == counts
    {}

    /** A client that no longer counts leaves the table. */
    method Forget(c: ClientId)
      requires Filed() && Counted(CountsNow(), ViewsNow()) && AuthsOk() && OthersOk(c) && c in clients
      requires clients[c].live ==> clients[c].authId !in auths
      modifies this`clients
      ensures Valid() && CountsNow() == old(CountsNow())
      ensures clients == old(clients) - {c} && ViewsNow() == old(ViewsNow()) - {c}
    {
      hide Counted, ViewsNow, CountsNow, ClientsOk, AuthsOk, OthersOk;
      AuthIs(NO_AUTH);
      ViewIs(c);
      Forgotten(CountsNow(), ViewsNow(), c);
      clients := clients - {c};
      ClientRemoved(c);
      CountsStep(NO_AUTH);
      AuthsStep(NO_AUTH);
    }

    lemma ViewIs(c: ClientId)
      ensures c in ViewsNow() <==> c in clients
      ensures c in clients ==> ViewsNow()[c] == ViewOf(clients[c])
      ensures forall a :: a in CountsNow() ==> a in auths
    {}

    twostate lemma ClientRemoved(c: ClientId)
      requires old(OthersOk(c)) && clients == old(clients) - {c}
      requires forall d :: d in clients ==> unchanged(clients[d])
      ensures ClientsOk() && ViewsNow() == old(ViewsNow()) - {c}
    {}

    /** The end of a connection, or of the resources that one has left behind. */
    method CloseDownClient(c: ClientId)
      requires Valid() && c in clients
      modifies this`clients, clients[c], Lookup(clients[c].authId)
      ensures Valid() && clients.Keys <= old(clients.Keys) && forall d :: d in clients ==> clients[d] == old(clients[d])
      ensures ViewsNow() == ClosedDown(old(ViewsNow()), c, old(clients[c].authId) in auths)
      ensures CountsNow() == Decreased(old(CountsNow()), old(clients[c].authId), old(clients[c].live))
      ensures Lookup(old(clients[c].authId)) != null && old(clients[c].live) ==> Restarted(Lookup(old(clients[c].authId)))
      ensures c in clients <==>
                !old(clients[c].clientGone) && old(clients[c].closeDownMode) in {RetainPermanent, RetainTemporary}
      ensures c in clients ==>
        && clients[c].phase == Retained && clients[c].clientGone && clients[c].closeDownMode == old(clients[c].closeDownMode)
        && clients[c].authId == old(clients[c].authId) && clients[c].live == (old(clients[c].live) && clients[c].authId !in auths)
      ensures clients - {c} == old(clients) - {c}
    {
      hide Counted, ViewsNow, CountsNow, ClientsOk, AuthsOk, OthersOk, AuthOk;
      var client := clients[c];
      ViewIs(c);
      var reallyCloseDown := ReallyCloseDown(ViewOf(client));
      if !reallyCloseDown {
        ghost var v := ViewOf(client);
        Depart(c, Retained);
        ViewIs(c);
        AllOk(c);
        assert ViewOf(client) == Departed(v, client.authId in auths, Retained);
      } else {
        Depart(c, Gone);
        ViewIs(c);
        Forget(c);
      }
    }

    lemma AllOk(c: ClientId)
      requires OthersOk(c) && c in clients && ClientOk(clients[c])
      ensures ClientsOk()
    {}

    twostate lemma AuthAdded(id: XID)
      requires old(AuthsOk()) && id in auths && auths == old(auths)[id := auths[id]] && AuthOk(auths[id])
      requires forall a :: a in old(auths) && a != id ==> unchanged(old(auths[a]))
      ensures AuthsOk() && CountsNow() == old(CountsNow())[id := auths[id].refcnt]
    {
      hide LastSeconds, LastDelay, Objects;
      AuthsAre();
    }

    twostate lemma AuthsAre()
      ensures forall a :: a in auths ==> auths[a] in Objects()
      ensures forall a :: a in old(auths) ==> old(auths[a]) in old(Objects())
    {}

    /** No client is touched. */
    twostate lemma ClientsKept()
      requires clients == old(clients) && forall d :: d in clients ==> unchanged(clients[d])
      requires old(ClientsOk())
      ensures ClientsOk() && ViewsNow() == old(ViewsNow())
    {}

    /** A new authorization, under an id that names none and that no client holds. Its timeout decides whether it
        waits for a client, is freed at once, or stops the server. */
    method GenerateAuthorization(id: XID, timeout: nat, trustLevel: nat) returns (s: Started)
      requires Valid() && id !in auths && id != NO_AUTH && timeout < 0x1_0000_0000
      requires forall c :: c in clients ==> clients[c].authId != id
      modifies this`auths
      ensures s == Fate(timeout, false, asserts)
      ensures s != AssertionFailed ==> Valid() && ViewsNow() == old(ViewsNow())
      ensures s == Ended ==> auths == old(auths)
      ensures s == Waiting ==>
        && id in auths && fresh(auths[id]) && auths == old(auths)[id := auths[id]]
        && auths[id].refcnt == 0 && auths[id].timeout == timeout && auths[id].trustLevel == trustLevel
        && auths[id].timer == if timeout == 0 then NoTimer else LastDelay(timeout)
    {
      hide Counted, ViewsNow, CountsNow, ClientsOk, AuthsOk, Delays, LastSeconds;
      NoViewNames(id);
      AuthIs(NO_AUTH);
      Dropped(CountsNow(), ViewsNow(), id);
      var auth := new Authorization(id, timeout, trustLevel);
      s := Waiting;
      if timeout != 0 {
        s := StartAuthorizationTimer(auth, asserts);
      }
      ClientsKept();
      if s == Waiting {
        auths := auths[id := auth];
        AuthAdded(id);
        ClientsKept();
      } else {
        // FreeResource takes the authorization off the resources again; no client names it.
        CountsStep(NO_AUTH);
        AuthsStep(NO_AUTH);
      }
    }

    lemma NoViewNames(id: XID)
      requires forall c :: c in clients ==> clients[c].authId != id
      ensures forall c :: c in ViewsNow() ==> ViewsNow()[c].authId != id
    {}

    /** A client asks for its resources to be retained, or not, when its connection ends: 0, 1 or 2. */
    method ChangeCloseDownMode(c: ClientId, mode: nat) returns (ok: bool)
      requires Valid() && c in clients
      modifies this.clients[c]
      ensures Valid() && ok == (mode <= 2) && CountsNow() == old(CountsNow())
      ensures !ok ==> ViewsNow() == old(ViewsNow())
      ensures ok ==> ViewsNow() == old(ViewsNow())[c := old(ViewsNow())[c].(closeDownMode := Mode(mode))]
      ensures (mode == 0 ==> clients[c].closeDownMode == DestroyAll)
           && (mode == 1 ==> clients[c].closeDownMode == RetainPermanent)
           && (mode == 2 ==> clients[c].closeDownMode == RetainTemporary)
           && clients[c].clientGone == old(clients[c].clientGone)
    {
      hide Counted, ViewsNow, CountsNow, ClientsOk, AuthsOk;
      if mode > 2 {
        return false;
      }
      ViewIs(c);
      ClientIs(c);
      AuthIs(NO_AUTH);
      ModeChanged(CountsNow(), ViewsNow(), c, Mode(mode));
      clients[c].closeDownMode := Mode(mode);
      ViewsStep(c);
      ClientsStep(c);
      CountsStep(NO_AUTH);
      AuthsStep(NO_AUTH);
      ok := true;
    }

    /** All clients that are retained temporarily are closed down again, and are gone then. */
    method CloseDownRetainedResources()
      requires Valid()
      modifies this`clients, Objects()
      ensures Valid() && auths == old(auths)
      ensures forall d :: d in clients ==> d in old(clients) && clients[d] == old(clients[d])
      ensures ViewsNow() == TemporariesGone(old(ViewsNow()), maxClients)
      ensures forall d :: d in old(clients) ==>
        (d in clients <==> !(old(clients[d].clientGone) && old(clients[d].closeDownMode) == RetainTemporary))
    {
      hide Counted, ViewsNow, CountsNow, ClientsOk, AuthsOk, TemporariesGone, ClosedDown;
      ghost var views := ViewsNow();
      AllViews();
      ViewsNumbered();
      NoneGone(views);
      var i := 1;
      while i < maxClients
        invariant 0 < i <= maxClients || i == 1
        invariant Valid() && auths == old(auths)
        invariant forall d :: d in clients ==> d in old(clients) && clients[d] == old(clients[d])
        invariant ViewsNow() == TemporariesGone(views, i)
      {
        ViewIs(i);
        OneMoreGone(views, i, i in clients && clients[i].authId in auths);
        if i in clients && clients[i].closeDownMode == RetainTemporary && clients[i].clientGone {
          CloseDownClient(i);
        }
        i := i + 1;
      }
      ViewsNumbered();
      AllGone(views, i, maxClients);
      AllViews();
      GonePerClient(views, maxClients);
    }

    /** A client of the default mode goes when its connection ends. One that asked to be retained stays, and goes when
        it is closed down once more. */
    method RetainedThenGone(c: ClientId, permanent: ClientId) returns (retained: Phase)
      requires Valid() && c !in clients && permanent !in clients && c != permanent
      requires 0 < c < maxClients && 0 < permanent < maxClients
      modifies this, Objects()
      ensures Valid() && c !in clients && permanent !in clients && retained == Retained
    {
      hide Counted, ViewsNow, ViewOf, CountsNow, ClientsOk, AuthsOk, AuthOk;
      NewClient(c);
      CloseDownClient(c);
      assert c !in clients;
      NewClient(permanent);
      var ok := ChangeCloseDownMode(permanent, 1);
      CloseDownClient(permanent);
      assert permanent in clients;
      retained := clients[permanent].phase;
      CloseDownClient(permanent);
    }

    /** The end of an authorization that is no resource any more: every client that names it is closed down. */
    method DeleteAuthorization(auth: Authorization)
      requires Valid() && auth.id !in auths
      modifies this`clients, Objects()
      ensures Valid() && CountsNow() == old(CountsNow()) && forall a :: a in auths ==> unchanged(auths[a])
      ensures forall d :: d in clients ==> d in old(clients) && clients[d] == old(clients[d])
      ensures ViewsNow() == ClosedBelow(old(ViewsNow()), auth.id, maxClients)
      ensures forall d :: d in old(clients) && old(clients[d].authId) != auth.id ==>
        d in clients && ViewOf(clients[d]) == old(ViewOf(clients[d]))
      ensures forall d :: d in old(clients) && old(clients[d].authId) == auth.id ==>
        && (d in clients <==>
              !old(clients[d].clientGone) && old(clients[d].closeDownMode) in {RetainPermanent, RetainTemporary})
        && (d in clients ==> clients[d].phase == Retained && clients[d].clientGone)
    {
      hide Counted, ViewsNow, CountsNow, AuthsOk, ClosedBelow, ClosedDown;
      ghost var views := ViewsNow();
      ViewsNumbered();
      NoneClosed(views, auth.id);
      var i := 1;
      while i < maxClients
        invariant 0 < i <= maxClients || i == 1
        invariant Valid() && CountsNow() == old(CountsNow()) && forall a :: a in auths ==> unchanged(auths[a])
        invariant forall d :: d in clients ==> d in old(clients) && clients[d] == old(clients[d])
        invariant ViewsNow() == ClosedBelow(views, auth.id, i)
      {
        OneMoreClosed(views, auth.id, i);
        ViewIs(i);
        if i in clients && clients[i].haveState && clients[i].authId == auth.id {
          CloseDownClient(i);
        }
        i := i + 1;
      }
      ViewsNumbered();
      AllClosed(views, auth.id, i, maxClients);
      ClosedFields(auth.id);
    }

    twostate lemma ClosedFields(id: XID)
      requires old(Filed()) && ViewsNow() == ClosedBelow(old(ViewsNow()), id, maxClients)
      ensures forall d :: d in old(clients) && old(clients[d].authId) != id ==>
        d in clients && ViewOf(clients[d]) == old(ViewOf(clients[d]))
      ensures forall d :: d in old(clients) && old(clients[d].authId) == id ==>
        && (d in clients <==>
              !old(clients[d].clientGone) && old(clients[d].closeDownMode) in {RetainPermanent, RetainTemporary})
        && (d in clients ==> clients[d].phase == Retained && clients[d].clientGone)
    {
      hide ClosedBelow;
      ghost var views := old(ViewsNow());
      ClosedPerClient(views, id, maxClients);
      AllViews();
      forall d | d in old(clients) ensures d in views && views[d] == old(ViewOf(clients[d])) {}
    }

    lemma AllViews()
      ensures forall d :: d in clients <==> d in ViewsNow()
      ensures forall d :: d in clients ==> ViewsNow()[d] == ViewOf(clients[d])
    {}

    lemma ViewsNumbered()
      requires Filed()
      ensures forall c :: c in ViewsNow() ==> 0 < c < maxClients
    {}

    /** FreeResource for an authorization: it leaves the resource table, then its delete function runs. */
    method FreeResource(id: XID)
      requires Filed() && Counted(CountsNow(), ViewsNow()) && ClientsOk() && id in auths
      requires forall a :: a in auths && a != id ==> AuthOk(auths[a])
      modifies this, Objects()
      ensures Valid() && auths == old(auths) - {id} && CountsNow() == old(CountsNow()) - {id}
      ensures forall a :: a in auths ==> unchanged(auths[a])
      ensures ViewsNow() == ClosedBelow(old(ViewsNow()), id, maxClients)
    {
      hide Counted, ViewsNow, ClientsOk;
      var auth := auths[id];
      Dropped(CountsNow(), ViewsNow(), id);
      auths := auths - {id};
      ClientsKept();
      assert CountsNow() == old(CountsNow()) - {id};
      DeleteAuthorization(auth);
    }

    /** A client asks for an authorization to be revoked. */
    method RevokeAuthorization(id: XID) returns (found: bool)
      requires Valid()
      modifies this, Objects()
      ensures Valid() && found == (id in old(auths))
      ensures auths == old(auths) - {id}
      ensures ViewsNow() == if found then ClosedBelow(old(ViewsNow()), id, maxClients) else old(ViewsNow())
      ensures forall a :: a in auths ==> unchanged(auths[a])
    {
      hide Counted, ViewsNow, CountsNow, ClientsOk;
      found := id in auths;
      if found {
        FreeResource(id);
      }
    }

    /**
     * A running timer runs out: the authorization ends, without a live user, and after its whole timeout exactly if
     * that is at most MAX_WAIT seconds.
     */
    method AuthorizationExpired(id: XID)
      requires Valid() && id in auths && auths[id].timer.Armed?
      modifies this, Objects()
      ensures Valid() && auths == old(auths) - {id}
      ensures old(LiveUsers(ViewsNow(), id)) == {}
      ensures var auth := old(auths[id]);
        old(auth.timer.delay) == MILLI_PER_SECOND * auth.timeout <==> auth.timeout <= MAX_WAIT
      ensures ViewsNow() == ClosedBelow(old(ViewsNow()), id, maxClients)
      ensures forall a :: a in auths ==> unchanged(auths[a])
    {
      hide Counted, ViewsNow, CountsNow, ClientsOk, LastSeconds;
      var auth := auths[id];
      AuthIs(id);
      NoLiveUser(id);
      LastWhole(auth);
      auth.timer := Idle;
      var newTime, over := SecurityAuthorizationExpired(auth);
      assert over && newTime == 0;
      CountsStep(id);
      ClientsKept();
      SameCount(old(CountsNow()), id);
      FreeResource(id);
    }

    lemma LastWhole(auth: Authorization)
      requires AuthOk(auth) && auth.timer.Armed?
      ensures auth.secondsRemaining == 0 && auth.timeout > 0
      ensures auth.timer.delay == MILLI_PER_SECOND * auth.timeout <==> auth.timeout <= MAX_WAIT
    {
      WholeTimeout(auth.timeout);
    }

    /** Nobody uses an authorization whose timer runs. */
    lemma NoLiveUser(id: XID)
      requires Valid() && id in auths && auths[id].timer.Armed?
      ensures LiveUsers(ViewsNow(), id) == {}
      ensures forall c :: c in clients && clients[c].authId == id ==> !clients[c].live
    {
      assert AuthOk(auths[id]);
      assert CountsNow()[id] == 0;
      forall c | c in clients && clients[c].authId == id ensures !clients[c].live {
        assert c !in LiveUsers(ViewsNow(), id);
      }
    }

    /** And the other way round: one with a timeout that nobody uses waits, up to 2147483 seconds for all of it. */
    lemma UnusedWaits(id: XID)
      requires Valid() && id in auths && auths[id].timeout > 0 && LiveUsers(ViewsNow(), id) == {}
      ensures auths[id].timer.Armed?
      ensures auths[id].timeout <= 2147483 ==> auths[id].timer.delay == 1000 * auths[id].timeout
    {
      assert AuthOk(auths[id]);
      assert CountsNow()[id] == 0;
    }
  }
}
