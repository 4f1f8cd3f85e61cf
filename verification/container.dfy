/** EndpointContainer: the ledger of the endpoints it creates, opens, starts, stops and closes. */
module Container {
  import opened Types

  datatype EndpointEntry = EndpointEntry(id: string, configPath: string)

  /** What the container has done to one endpoint. */
  datatype Account = Account(id: string, didOpen: bool, starts: nat, stops: nat, closes: nat, startedNow: bool, closedWhileStarted: bool)

  function NewAccount(id: string): Account {
    Account(id, false, 0, 0, 0, false, false)
  }

  /** Endpoint::open, start, stop and close, as the ledger sees them. */
  function Opened(a: Account, err: Status): Account {
    a.(didOpen := a.didOpen || err == OK)
  }

  function Started(a: Account, err: Status): Account {
    a.(starts := a.starts + 1, startedNow := a.startedNow || err == OK)
  }

  function Stopped(a: Account): Account {
    a.(stops := a.stops + 1, startedNow := false)
  }

  function Closed(a: Account): Account {
    a.(closes := a.closes + 1, closedWhileStarted := a.closedWhileStarted || a.startedNow, startedNow := false)
  }

  /** Every endpoint ever created is in the cache under its id and not yet closed, or was closed
      exactly once and is gone. */
  ghost predicate IsLedger(cache: map<string, nat>, ledger: seq<Account>) {
    && (forall id | id in cache :: cache[id] < |ledger| && ledger[cache[id]].id == id && ledger[cache[id]].closes == 0)
    && (forall n | 0 <= n < |ledger| ::
          || (ledger[n].closes == 0 && ledger[n].id in cache && cache[ledger[n].id] == n)
          || (ledger[n].closes == 1 && !ledger[n].startedNow))
  }

  ghost predicate NoneStarted(ledger: seq<Account>) {
    forall n | 0 <= n < |ledger| :: !ledger[n].startedNow
  }

  /** No endpoint was ever closed while started. */
  ghost predicate IsOrderly(ledger: seq<Account>) {
    forall n | 0 <= n < |ledger| :: !ledger[n].closedWhileStarted
  }

  /** `f` was applied to the endpoints in the cache, and to no other. */
  ghost predicate AppliedToAll(f: Account -> Account, cache: map<string, nat>, before: seq<Account>, after: seq<Account>) {
    && |after| == |before|
    && (forall n | 0 <= n < |before| ::
          after[n] == if before[n].id in cache && cache[before[n].id] == n then f(before[n]) else before[n])
  }

  lemma {:induction false} ForgetAllClosed(cache: map<string, nat>, before: seq<Account>, after: seq<Account>)
    requires IsLedger(cache, before) && AppliedToAll(Closed, cache, before, after)
    ensures IsLedger(map[], after) && NoneStarted(after)
    ensures IsOrderly(after) <==> IsOrderly(before) && NoneStarted(before)
  {
    forall n | 0 <= n < |before|
      ensures !after[n].startedNow
      ensures after[n].closedWhileStarted <==> before[n].closedWhileStarted || before[n].startedNow
    {
    }
  }

  class EndpointContainer {
    const results: nat -> Status          // what the n-th call on an endpoint returns
    var callsMade: nat
    const configured: Status              // the outcome of reading the configuration
    const configuredEntries: seq<EndpointEntry>
    var entries: seq<EndpointEntry>
    var cache: map<string, nat>           // id -> endpoint, by creation number
    var initialized: bool
    var ledger: seq<Account>              // every endpoint ever created

    /** The ledger is consistent, and only an initialised container has started endpoints. */
    ghost predicate Valid()
      reads this
    {
      IsLedger(cache, ledger) && (initialized || NoneStarted(ledger))
    }

    ghost predicate Orderly()
      reads this
    {
      IsOrderly(ledger)
    }

    constructor (results: nat -> Status, configured: Status, configuredEntries: seq<EndpointEntry>)
      ensures Valid() && Orderly() && !initialized && ledger == [] && cache == map[] && callsMade == 0
      ensures this.results == results && this.configured == configured && this.configuredEntries == configuredEntries
    {
      this.results, this.configured, this.configuredEntries := results, configured, configuredEntries;
      callsMade, entries, cache, initialized, ledger := 0, [], map[], false, [];
    }

    method NextResult() returns (err: Status)
      modifies this`callsMade
      ensures callsMade == old(callsMade) + 1 && err == results(old(callsMade))
    {
      err := results(callsMade);
      callsMade := callsMade + 1;
    }

    /** load_entries_, starting from the parsed configuration. */
    method LoadEntries() returns (err: Status)
      modifies this`entries
      ensures err == configured && entries == if err == OK then configuredEntries else []
    {
      entries := [];
      if configured != OK {
        return configured;
      }
      entries := configuredEntries;
      return OK;
    }

    /** create_: the endpoint of an id, made on first use. */
    method Create(e: EndpointEntry) returns (ep: nat)
      requires Valid()
      modifies this`cache, this`ledger
      ensures Valid() && e.id in cache && cache[e.id] == ep
      ensures Orderly() == old(Orderly()) && NoneStarted(ledger) == old(NoneStarted(ledger))
      ensures e.id in old(cache) ==> cache == old(cache) && ledger == old(ledger)
      ensures e.id !in old(cache) ==>
        ep == |old(ledger)| && cache == old(cache)[e.id := ep] &&
        ledger == old(ledger) + [Account(e.id, false, 0, 0, 0, false, false)]
    {
      if e.id !in cache {
        ep := |ledger|;
        AppendNew(ledger, NewAccount(e.id));
        ledger := ledger + [NewAccount(e.id)];
        cache := cache[e.id := ep];
      } else {
        ep := cache[e.id];
      }
    }

    /** create_and_open_. */
    method CreateAndOpen(e: EndpointEntry) returns (err: Status)
      requires Valid()
      modifies this`cache, this`ledger, this`callsMade
      ensures Valid() && Orderly() == old(Orderly())
      ensures err == results(old(callsMade)) && callsMade == old(callsMade) + 1
      ensures cache.Keys == old(cache.Keys) + {e.id} && KeepsOpen(old(cache), old(ledger), cache, ledger)
      ensures cache[e.id] < |ledger|
      ensures ledger[cache[e.id]].didOpen <==>
        err == OK || (e.id in old(cache) && old(cache)[e.id] < |old(ledger)| && old(ledger)[old(cache)[e.id]].didOpen)
    {
      hide IsLedger, IsOrderly, NoneStarted, NewAccount, Opened;
      var ep := Create(e);
      err := NextResult();
      OpenOne(cache, ledger, e, err);
      ledger := ledger[ep := Opened(ledger[ep], err)];
    }

    /** The rollback of create_pdu_lchannels and initialize: close and forget every endpoint, in
        whatever order the hash map yields them. */
    method Rollback()
      requires Valid()
      modifies this`cache, this`ledger, this`callsMade
      ensures Valid() && cache == map[]
      ensures AppliedToAll(Closed, old(cache), old(ledger), ledger)
      ensures NoneStarted(ledger)
      ensures Orderly() <==> old(Orderly()) && old(NoneStarted(ledger))
    {
      hide IsLedger, IsOrderly, AppliedToAll, AppliedToDone, NoneStarted, Closed;
      NothingApplied(Closed, cache, ledger);
      var todo := cache.Keys;
      while todo != {}
        invariant todo <= cache.Keys && cache == old(cache)
        invariant AppliedToDone(Closed, cache, todo, old(ledger), ledger)
        decreases |todo|
      {
        var id :| id in todo;
        var _ := NextResult();
        ApplyOne(Closed, cache, todo, id, old(ledger), ledger);
        ledger := ledger[cache[id] := Closed(ledger[cache[id]])];
        todo := todo - {id};
      }
      AllApplied(Closed, cache, old(ledger), ledger);
      ForgetAllClosed(cache, old(ledger), ledger);
      cache := map[];
    }

    /** create_pdu_lchannels. It fails exactly when the configuration or some call fails, and puts the
        container out of order exactly when such a call fails while an endpoint is started. */
    method CreatePduLchannels() returns (err: Status)
      requires Valid()
      modifies this`entries, this`cache, this`ledger, this`callsMade
      ensures Valid()
      ensures err == if configured != OK then configured
                     else FirstError(results, old(callsMade), old(callsMade) + |configuredEntries|)
      ensures Orderly() <==>
        old(Orderly()) && (err == OK || configured != OK || old(NoneStarted(ledger)))
      ensures err != OK && configured == OK ==> cache == map[]
      ensures err == OK ==> forall i | 0 <= i < |entries| :: entries[i].id in cache
      ensures |ledger| >= |old(ledger)|
      ensures err == OK || configured != OK ==> ledger[..|old(ledger)|] == old(ledger)
      ensures err != OK && configured == OK ==>
        forall n | 0 <= n < |old(ledger)| && old(ledger)[n].closes == 0 :: ledger[n] == Closed(old(ledger)[n])
    {
      hide IsLedger, IsOrderly, NoneStarted, AppliedToAll, StartedExcept, Closed, Started, NewAccount, FirstError;
      err := LoadEntries();
      if err != OK {
        return;
      }
      var i := 0;
      NoError(results, callsMade);
      while i < |entries|
        invariant 0 <= i <= |entries| && entries == configuredEntries && configured == OK
        invariant Valid()
        invariant Extends(old(ledger), ledger)
        invariant Orderly() == old(Orderly()) && NoneStarted(ledger) == old(NoneStarted(ledger))
        invariant callsMade == old(callsMade) + i && FirstError(results, old(callsMade), callsMade) == OK
        invariant forall k | 0 <= k < i :: entries[k].id in cache
      {
        var _ := Create(entries[i]);
        NextError(results, old(callsMade), callsMade);
        err := NextResult();
        ghost var (c, l) := (cache, ledger);
        if err != OK {
          FirstErrorStays(results, old(callsMade), callsMade, old(callsMade) + |entries|);
          Rollback();
          ClosedSince(c, old(ledger), l, ledger);
          return;
        }
        i := i + 1;
      }
      return OK;
    }

    /** initialize: succeeds exactly when the container is new, its configuration can be read and every
        endpoint opens. */
    method Initialize() returns (err: Status)
      requires Valid()
      modifies this`entries, this`cache, this`ledger, this`callsMade, this`initialized
      ensures Valid()
      ensures Orderly() == old(Orderly())
      ensures err == OK <==>
        && !old(initialized) && configured == OK
        && (forall k | old(callsMade) <= k < old(callsMade) + |configuredEntries| :: results(k) == OK)
      ensures initialized <==> old(initialized) || err == OK
      ensures err == OK ==>
        && entries == configuredEntries && callsMade == old(callsMade) + |configuredEntries|
        && IsOpened(entries, cache, ledger) && cache.Keys == old(cache.Keys) + Ids(entries)
      ensures old(initialized) ==> err == InvalidConfig && cache == old(cache) && ledger == old(ledger)
      ensures err != OK && !old(initialized) && configured != OK ==>
        err == configured && cache == old(cache) && ledger == old(ledger)
      ensures err != OK && !old(initialized) && configured == OK ==> err == InvalidConfig && cache == map[]
    {
      hide IsLedger, IsOrderly, NoneStarted, AppliedToAll, StartedExcept, Closed, Started, IsOpened, Ids, KeepsOpen;
      if initialized {
        return InvalidConfig;
      }
      err := LoadEntries();
      if err != OK {
        return;
      }
      var i := 0;
      NothingOpened(cache, ledger);
      while i < |entries|
        invariant 0 <= i <= |entries| && entries == configuredEntries && configured == OK
        invariant !initialized && Valid() && Orderly() == old(Orderly())
        invariant callsMade == old(callsMade) + i
        invariant forall k | old(callsMade) <= k < callsMade :: results(k) == OK
        invariant IsOpened(entries[..i], cache, ledger) && cache.Keys == old(cache.Keys) + Ids(entries[..i])
      {
        ghost var (c, l) := (cache, ledger);
        err := CreateAndOpen(entries[i]);
        if err != OK {
          Rollback();
          return InvalidConfig;
        }
        assert entries[..i] + [entries[i]] == entries[..i + 1];
        IdsSnoc(entries[..i], entries[i]);
        OpenedMore(entries[..i], entries[i], c, l, cache, ledger);
        i := i + 1;
      }
      assert entries[..i] == entries;
      initialized := true;
      return OK;
    }

    /** start_all: every endpoint is tried, in whatever order the hash map yields them. */
    method StartAll() returns (err: Status)
      requires Valid()
      modifies this`ledger, this`callsMade
      ensures Valid()
      ensures Orderly() == old(Orderly())
      ensures !initialized ==> err == InvalidConfig && ledger == old(ledger) && callsMade == old(callsMade)
      ensures initialized ==>
        && callsMade == old(callsMade) + |cache|
        && err == FirstError(results, old(callsMade), callsMade)
        && StartedExcept(cache, {}, old(ledger), ledger, err == OK)
        && EachStarted(cache, old(ledger), ledger, err == OK)
    {
      hide IsLedger, IsOrderly, NoneStarted, StartedExcept, EachStarted, Started, FirstError;
      if !initialized {
        return InvalidConfig;
      }
      var firstErr := OK;
      var todo := cache.Keys;
      NoError(results, callsMade);
      NothingStarted(cache, ledger);
      while todo != {}
        invariant todo <= cache.Keys
        invariant callsMade == old(callsMade) + |cache.Keys| - |todo|
        invariant firstErr == FirstError(results, old(callsMade), callsMade)
        invariant StartedExcept(cache, todo, old(ledger), ledger, firstErr == OK)
        decreases |todo|
      {
        var id :| id in todo;
        NextError(results, old(callsMade), callsMade);
        var e := NextResult();
        StartOne(cache, todo, id, old(ledger), ledger, firstErr == OK, e);
        ledger := ledger[cache[id] := Started(ledger[cache[id]], e)];
        if e != OK && firstErr == OK {
          firstErr := e;
        }
        todo := todo - {id};
      }
      StartsKeep(cache, old(ledger), ledger, firstErr == OK);
      return firstErr;
    }

    /** stop_all: every endpoint is stopped, then closed, then forgotten, whatever fails. */
    method StopAll() returns (err: Status)
      requires Valid()
      modifies this`cache, this`ledger, this`callsMade, this`initialized
      ensures Valid()
      ensures Orderly() == old(Orderly())
      ensures !old(initialized) ==> err == InvalidConfig && ledger == old(ledger) && cache == old(cache) && !initialized
      ensures old(initialized) ==>
        && !initialized && cache == map[]
        && AppliedToAll(StoppedAndClosed, old(cache), old(ledger), ledger)
        && EachStopped(old(cache), old(ledger), ledger)
        && callsMade == old(callsMade) + 2 * |old(cache)|
        && err == FirstError(results, old(callsMade), callsMade)
    {
      hide IsLedger, IsOrderly, NoneStarted, AppliedToAll, AppliedToDone, EachStopped, FirstError, Stopped, Closed, StoppedAndClosed;
      if !initialized {
        return InvalidConfig;
      }
      var firstErr := OK;
      NoError(results, callsMade);
      var todo := cache.Keys;
      NothingApplied(StoppedAndClosed, cache, ledger);
      while todo != {}
        invariant todo <= cache.Keys && cache == old(cache)
        invariant initialized
        invariant callsMade == old(callsMade) + 2 * (|cache.Keys| - |todo|)
        invariant firstErr == FirstError(results, old(callsMade), callsMade)
        invariant AppliedToDone(StoppedAndClosed, cache, todo, old(ledger), ledger)
        decreases |todo|
      {
        var id :| id in todo;
        StopOneMore(cache, todo, id, old(ledger), ledger);
        NextError(results, old(callsMade), callsMade);
        NextError(results, old(callsMade), callsMade + 1);
        var stopErr := NextResult();
        ledger := ledger[cache[id] := Stopped(ledger[cache[id]])];
        if stopErr != OK && firstErr == OK {
          firstErr := stopErr;
        }
        var closeErr := NextResult();
        ledger := ledger[cache[id] := Closed(ledger[cache[id]])];
        if closeErr != OK && firstErr == OK {
          firstErr := closeErr;
        }
        todo := todo - {id};
      }
      AllApplied(StoppedAndClosed, cache, old(ledger), ledger);
      StopAllKeeps(cache, old(ledger), ledger);
      cache := map[];
      initialized := false;
      return firstErr;
    }

    /** start(endpoint_id). */
    method StartOneEndpoint(id: string) returns (err: Status)
      requires Valid()
      modifies this`ledger, this`callsMade
      ensures Valid()
      ensures Orderly() == old(Orderly())
      ensures !initialized || id !in cache ==> err == InvalidConfig && ledger == old(ledger)
      ensures initialized && id in cache ==>
        && err == results(old(callsMade)) && callsMade == old(callsMade) + 1
        && ledger == old(ledger)[cache[id] := Started(old(ledger)[cache[id]], err)]
        && ledger[cache[id]].starts == old(ledger)[cache[id]].starts + 1
        && (ledger[cache[id]].startedNow <==> old(ledger)[cache[id]].startedNow || err == OK)
    {
      if !initialized || id !in cache {
        return InvalidConfig;
      }
      err := NextResult();
      OneChanged(ledger, cache[id], Started(ledger[cache[id]], err));
      ledger := ledger[cache[id] := Started(ledger[cache[id]], err)];
    }

    /** stop(endpoint_id): stopping an unknown endpoint is not an error. */
    method StopOneEndpoint(id: string) returns (err: Status)
      requires Valid()
      modifies this`cache, this`ledger, this`callsMade
      ensures Valid()
      ensures Orderly() == old(Orderly())
      ensures !initialized ==> err == InvalidConfig && ledger == old(ledger) && cache == old(cache)
      ensures initialized && id !in old(cache) ==> err == OK && ledger == old(ledger) && cache == old(cache)
      ensures initialized && id in old(cache) ==>
        && cache == old(cache) - {id}
        && ledger == old(ledger)[old(cache)[id] := StoppedAndClosed(old(ledger)[old(cache)[id]])]
        && |ledger| == |old(ledger)|
        && (var (a, b) := (old(ledger)[old(cache)[id]], ledger[old(cache)[id]]);
            b.stops == a.stops + 1 && b.closes == 1 && !b.startedNow && b.closedWhileStarted == a.closedWhileStarted)
        && err == FirstError(results, old(callsMade), callsMade) && callsMade == old(callsMade) + 2
    {
      if !initialized {
        return InvalidConfig;
      }
      if id !in cache {
        return OK;
      }
      hide IsLedger, IsOrderly, FirstError, Stopped, Closed, StoppedAndClosed;
      ForgetOne(cache, ledger, id);
      TwoResults(results, callsMade);
      err := NextResult();
      ledger := ledger[cache[id] := Stopped(ledger[cache[id]])];
      var closeErr := NextResult();
      ledger := ledger[cache[id] := Closed(ledger[cache[id]])];
      if closeErr != OK && err == OK {
        err := closeErr;
      }
      cache := cache - {id};
    }
  }

  function StoppedAndClosed(a: Account): Account {
    Closed(Stopped(a))
  }

  lemma {:induction false} NothingStarted(cache: map<string, nat>, ledger: seq<Account>)
    ensures StartedExcept(cache, cache.Keys, ledger, ledger, true)
  {
  }

  lemma {:induction false} NothingApplied(f: Account -> Account, cache: map<string, nat>, ledger: seq<Account>)
    ensures AppliedToDone(f, cache, cache.Keys, ledger, ledger)
  {
  }

  lemma {:induction false} AllApplied(f: Account -> Account, cache: map<string, nat>, before: seq<Account>, after: seq<Account>)
    requires AppliedToDone(f, cache, {}, before, after)
    ensures AppliedToAll(f, cache, before, after)
  {
  }

  lemma {:induction false} StopOneMore(cache: map<string, nat>, todo: set<string>, id: string,
                                       before: seq<Account>, after: seq<Account>)
    requires IsLedger(cache, before) && id in todo && todo <= cache.Keys
    requires AppliedToDone(StoppedAndClosed, cache, todo, before, after)
    ensures cache[id] < |after|
    ensures var n := cache[id];
            var stopped := after[n := Stopped(after[n])];
            AppliedToDone(StoppedAndClosed, cache, todo - {id}, before, stopped[n := Closed(stopped[n])])
  {
    hide IsLedger, AppliedToDone, Stopped, Closed, StoppedAndClosed;
    ApplyOne(StoppedAndClosed, cache, todo, id, before, after);
    StopThenClose(after, cache[id]);
  }

  lemma {:induction false} StopAllKeeps(cache: map<string, nat>, before: seq<Account>, after: seq<Account>)
    requires IsLedger(cache, before) && AppliedToAll(StoppedAndClosed, cache, before, after)
    ensures IsLedger(map[], after) && NoneStarted(after)
    ensures IsOrderly(before) == IsOrderly(after)
    ensures EachStopped(cache, before, after)
  {
    forall n | 0 <= n < |before|
      ensures !after[n].startedNow && after[n].closedWhileStarted == before[n].closedWhileStarted
    {
    }
  }

  // ---------------------------------------------------------------- runs

  datatype Call = CreatePduLchannels | Initialize | StartAll | StopAll | StartEndpoint(id: string) | StopEndpoint(id: string)

  /** Over every sequence of calls with any failures, each endpoint ever created is in the cache or was
      closed exactly once. An endpoint was closed while started exactly when create_pdu_lchannels failed
      while one was started, which takes a call of it on an initialised container, against its
      documented order. */
  method Drive(c: EndpointContainer, calls: seq<Call>) returns (late: bool, ghost failedLate: bool)
    requires c.Valid() && c.Orderly()
    modifies c
    ensures c.Valid()
    ensures c.Orderly() <==> !failedLate
    ensures failedLate ==> late
  {
    hide IsLedger, IsOrderly, NoneStarted, AppliedToAll, StartedExcept, Closed, Started, Stopped, FirstError, IsOpened,
         StoppedAndClosed;
    late, failedLate := false, false;
    var i := 0;
    while i < |calls|
      invariant 0 <= i <= |calls|
      invariant c.Valid() && (c.Orderly() <==> !failedLate) && (failedLate ==> late)
    {
      match calls[i] {
        case CreatePduLchannels =>
          late := late || c.initialized;
          ghost var started := !NoneStarted(c.ledger);
          var err := c.CreatePduLchannels();
          failedLate := failedLate || (started && err != OK && c.configured == OK);
        case Initialize => var _ := c.Initialize();
        case StartAll => var _ := c.StartAll();
        case StopAll => var _ := c.StopAll();
        case StartEndpoint(id) => var _ := c.StartOneEndpoint(id);
        case StopEndpoint(id) => var _ := c.StopOneEndpoint(id);
      }
      i := i + 1;
    }
  }

  /** Such a run: initialize and start_all succeed, then create_pdu_lchannels fails. Its rollback closes
      the endpoint that is still started. */
  method OutOfOrderRun(e: EndpointEntry) returns (c: EndpointContainer)
    ensures fresh(c) && c.Valid() && c.initialized && c.cache == map[]
    ensures exists n :: 0 <= n < |c.ledger| && c.ledger[n].id == e.id && c.ledger[n].closedWhileStarted
  {
    hide FirstError, IsOrderly, IsLedger, NoneStarted, StartedExcept, Started, Closed, IsOpened;
    c := new EndpointContainer(FailsFromThirdCall, OK, [e]);
    var err := c.Initialize();
    assert c.entries[0] == e && c.cache.Keys == {e.id};
    ghost var n := c.cache[e.id];
    ghost var before := c.ledger;
    err := c.StartAll();
    OneResult(c.results, 1);
    ghost var l := c.ledger;
    IsStarted(c.cache, before, c.ledger, e.id);
    err := c.CreatePduLchannels();
    OneResult(c.results, 2);
    CloseStarted(l[n]);
  }

  lemma {:induction false} IsStarted(cache: map<string, nat>, before: seq<Account>, after: seq<Account>, id: string)
    requires IsLedger(cache, before) && StartedExcept(cache, {}, before, after, true) && id in cache
    ensures cache[id] < |after| && after[cache[id]].startedNow && after[cache[id]].closes == 0 && after[cache[id]].id == id
    ensures !NoneStarted(after)
  {
    StartsKeep(cache, before, after, true);
  }

  lemma {:induction false} CloseStarted(a: Account)
    requires a.startedNow
    ensures Closed(a).closedWhileStarted && Closed(a).id == a.id
  {
  }

  function FailsFromThirdCall(n: nat): Status {
    if n < 2 then OK else IoError
  }

  lemma {:induction false} OneResult(results: nat -> Status, a: nat)
    ensures FirstError(results, a, a + 1) == results(a)
  {
    NoError(results, a);
  }

  ghost predicate Extends(before: seq<Account>, after: seq<Account>) {
    |before| <= |after| && forall n | 0 <= n < |before| :: after[n] == before[n]
  }

  /** The first result that is not OK among calls a up to b. */
  function FirstError(results: nat -> Status, a: nat, b: nat): (err: Status)
    ensures err == OK <==> forall k | a <= k < b :: results(k) == OK
  {
    if b <= a then OK
    else var front := FirstError(results, a, b - 1); if front != OK then front else results(b - 1)
  }

  /** It is one of the results, and every result before it is OK. */
  lemma {:induction false} FirstErrorIsFirst(results: nat -> Status, a: nat, b: nat)
    ensures FirstError(results, a, b) != OK ==> exists k :: FailsFirstAt(results, a, b, k) && FirstError(results, a, b) == results(k)
  {
    if a < b {
      FirstErrorIsFirst(results, a, b - 1);
      if FirstError(results, a, b - 1) == OK && results(b - 1) != OK {
        assert FailsFirstAt(results, a, b, b - 1);
      } else if k: nat :| FailsFirstAt(results, a, b - 1, k) && FirstError(results, a, b - 1) == results(k) {
        assert FailsFirstAt(results, a, b, k);
      }
    }
  }

  predicate FailsFirstAt(results: nat -> Status, a: nat, b: nat, k: nat) {
    a <= k < b && results(k) != OK && forall j | a <= j < k :: results(j) == OK
  }

  lemma {:induction false} NoError(results: nat -> Status, a: nat)
    ensures FirstError(results, a, a) == OK
  {
  }

  lemma {:induction false} NextError(results: nat -> Status, a: nat, b: nat)
    requires a <= b
    ensures FirstError(results, a, b + 1) == if FirstError(results, a, b) != OK then FirstError(results, a, b) else results(b)
  {
  }

  lemma {:induction false} TwoResults(results: nat -> Status, a: nat)
    ensures FirstError(results, a, a + 2) == if results(a) != OK then results(a) else results(a + 1)
  {
    NoError(results, a);
    NextError(results, a, a);
    NextError(results, a, a + 1);
  }

  lemma {:induction false} OneChanged(ledger: seq<Account>, n: nat, a: Account)
    requires n < |ledger| && a.closedWhileStarted == ledger[n].closedWhileStarted
    ensures IsOrderly(ledger[n := a]) == IsOrderly(ledger)
  {
    assert forall k | 0 <= k < |ledger| :: ledger[n := a][k].closedWhileStarted == ledger[k].closedWhileStarted;
  }

  lemma {:induction false} ForgetOne(cache: map<string, nat>, ledger: seq<Account>, id: string)
    requires IsLedger(cache, ledger) && id in cache
    ensures cache[id] < |ledger|
    ensures var n := cache[id];
            var stopped := ledger[n := Stopped(ledger[n])];
            var ledger' := stopped[n := Closed(stopped[n])];
      && ledger' == ledger[n := StoppedAndClosed(ledger[n])]
      && IsLedger(cache - {id}, ledger') && IsOrderly(ledger') == IsOrderly(ledger)
      && ledger'[n].stops == ledger[n].stops + 1 && ledger'[n].closes == 1 && !ledger'[n].startedNow
      && ledger'[n].closedWhileStarted == ledger[n].closedWhileStarted
  {
    StopThenClose(ledger, cache[id]);
    OneChanged(ledger, cache[id], StoppedAndClosed(ledger[cache[id]]));
  }

  lemma {:induction false} StopThenClose(ledger: seq<Account>, n: nat)
    requires n < |ledger|
    ensures var stopped := ledger[n := Stopped(ledger[n])];
      stopped[n := Closed(stopped[n])] == ledger[n := StoppedAndClosed(ledger[n])]
  {
  }

  /** Each endpoint in the cache whose id is not excepted was started once, and every one of them
      is running if `allOk`; nothing else changed. */
  ghost predicate StartedExcept(cache: map<string, nat>, except: set<string>,
                                before: seq<Account>, after: seq<Account>, allOk: bool)
  {
    && |after| == |before|
    && (forall n | 0 <= n < |before| ::
          if before[n].id in cache && cache[before[n].id] == n && before[n].id !in except
          then (after[n] == Started(before[n], OK) || (!allOk && after[n] == Started(before[n], IoError)))
          else after[n] == before[n])
  }

  /** The same in terms of the counts: every endpoint in the cache got one more start and nothing else, no
      other endpoint got anything, and if all calls succeeded every one in the cache is started. */
  ghost predicate EachStarted(cache: map<string, nat>, before: seq<Account>, after: seq<Account>, allOk: bool) {
    && |after| == |before|
    && (forall id | id in cache ::
          && cache[id] < |before|
          && var (a, b) := (before[cache[id]], after[cache[id]]);
             && b.starts == a.starts + 1 && b.stops == a.stops && b.closes == a.closes
             && (a.startedNow || allOk ==> b.startedNow))
    && (forall n | 0 <= n < |before| && !(before[n].id in cache && cache[before[n].id] == n) :: after[n] == before[n])
  }

  /** Every endpoint in the cache got one more stop and one more close, and no other endpoint anything. */
  ghost predicate EachStopped(cache: map<string, nat>, before: seq<Account>, after: seq<Account>) {
    && |after| == |before|
    && (forall id | id in cache ::
          && cache[id] < |before|
          && var (a, b) := (before[cache[id]], after[cache[id]]);
             && b.starts == a.starts && b.stops == a.stops + 1 && b.closes == a.closes + 1 && !b.startedNow
             && b.closedWhileStarted == a.closedWhileStarted)
    && (forall n | 0 <= n < |before| && !(before[n].id in cache && cache[before[n].id] == n) :: after[n] == before[n])
  }

  lemma {:induction false} StartOne(cache: map<string, nat>, todo: set<string>, id: string,
                                    before: seq<Account>, after: seq<Account>, allOk: bool, e: Status)
    requires IsLedger(cache, before) && id in todo && todo <= cache.Keys
    requires StartedExcept(cache, todo, before, after, allOk)
    ensures var n := cache[id];
      && n < |after|
      && StartedExcept(cache, todo - {id}, before, after[n := Started(after[n], e)], allOk && e == OK)
  {
  }

  lemma {:induction false} StartsKeep(cache: map<string, nat>, before: seq<Account>, after: seq<Account>, allOk: bool)
    requires IsLedger(cache, before) && StartedExcept(cache, {}, before, after, allOk)
    ensures IsLedger(cache, after)
    ensures IsOrderly(before) == IsOrderly(after)
    ensures EachStarted(cache, before, after, allOk)
  {
    forall n | 0 <= n < |before|
      ensures after[n].closedWhileStarted == before[n].closedWhileStarted
    {
    }
  }

  lemma {:induction false} AppendNew(ledger: seq<Account>, a: Account)
    requires !a.startedNow && !a.closedWhileStarted
    ensures IsOrderly(ledger + [a]) == IsOrderly(ledger) && NoneStarted(ledger + [a]) == NoneStarted(ledger)
  {
    assert forall n | 0 <= n < |ledger| :: (ledger + [a])[n] == ledger[n];
  }

  function Ids(entries: seq<EndpointEntry>): set<string> {
    set e | e in entries :: e.id
  }

  /** Every entry has an endpoint in the cache whose open succeeded. */
  ghost predicate IsOpened(entries: seq<EndpointEntry>, cache: map<string, nat>, ledger: seq<Account>) {
    forall i | 0 <= i < |entries| ::
      var id := entries[i].id; id in cache && cache[id] < |ledger| && ledger[cache[id]].didOpen
  }

  /** Cached endpoints keep their numbers, and open ones stay open. */
  ghost predicate KeepsOpen(cache: map<string, nat>, ledger: seq<Account>, cache': map<string, nat>, ledger': seq<Account>) {
    && (forall id | id in cache :: id in cache' && cache'[id] == cache[id])
    && (forall id | id in cache && cache[id] < |ledger| ::
          cache[id] < |ledger'| && (ledger[cache[id]].didOpen ==> ledger'[cache[id]].didOpen))
    && (forall id | id in cache' :: cache'[id] < |ledger'|)
  }

  lemma {:induction false} NothingOpened(cache: map<string, nat>, ledger: seq<Account>)
    ensures IsOpened([], cache, ledger) && cache.Keys == cache.Keys + Ids([])
  {
  }

  lemma {:induction false} IdsSnoc(entries: seq<EndpointEntry>, e: EndpointEntry)
    ensures Ids(entries + [e]) == Ids(entries) + {e.id}
  {
    assert forall x :: x in entries + [e] <==> x in entries || x == e;
  }

  lemma {:induction false} OpenedMore(entries: seq<EndpointEntry>, e: EndpointEntry,
                                      cache: map<string, nat>, ledger: seq<Account>,
                                      cache': map<string, nat>, ledger': seq<Account>)
    requires IsOpened(entries, cache, ledger) && KeepsOpen(cache, ledger, cache', ledger')
    requires e.id in cache' && cache'[e.id] < |ledger'| && ledger'[cache'[e.id]].didOpen
    ensures IsOpened(entries + [e], cache', ledger')
  {
  }

  lemma {:induction false} OpenOne(cache: map<string, nat>, ledger: seq<Account>, e: EndpointEntry, err: Status)
    requires IsLedger(cache, ledger) && e.id in cache
    ensures cache[e.id] < |ledger|
    ensures var ledger' := ledger[cache[e.id] := Opened(ledger[cache[e.id]], err)];
      && IsLedger(cache, ledger') && KeepsOpen(cache, ledger, cache, ledger')
      && IsOrderly(ledger') == IsOrderly(ledger) && (NoneStarted(ledger) ==> NoneStarted(ledger'))
      && (ledger'[cache[e.id]].didOpen <==> ledger[cache[e.id]].didOpen || err == OK)
  {
    var ledger' := ledger[cache[e.id] := Opened(ledger[cache[e.id]], err)];
    forall n | 0 <= n < |ledger|
      ensures ledger'[n] == ledger[n].(didOpen := ledger'[n].didOpen) && (ledger[n].didOpen ==> ledger'[n].didOpen)
    {
    }
  }

  lemma {:induction false} FirstErrorStays(results: nat -> Status, a: nat, b: nat, c: nat)
    requires a <= b <= c && FirstError(results, a, b) != OK
    ensures FirstError(results, a, c) == FirstError(results, a, b)
    decreases c
  {
    if b < c {
      FirstErrorStays(results, a, b, c - 1);
    }
  }

  /** Endpoints open before a failing call are closed by its rollback. */
  lemma {:induction false} ClosedSince(cache: map<string, nat>, start: seq<Account>, before: seq<Account>, after: seq<Account>)
    requires IsLedger(cache, before) && Extends(start, before) && AppliedToAll(Closed, cache, before, after)
    ensures |after| >= |start|
    ensures forall n | 0 <= n < |start| && start[n].closes == 0 :: after[n] == Closed(start[n])
  {
  }

  /** `f` was applied to the endpoints in the cache whose ids are not still to do. */
  ghost predicate AppliedToDone(f: Account -> Account, cache: map<string, nat>, todo: set<string>,
                                before: seq<Account>, after: seq<Account>)
  {
    && |after| == |before|
    && (forall n | 0 <= n < |before| ::
          after[n] == if before[n].id in cache && cache[before[n].id] == n && before[n].id !in todo
                      then f(before[n]) else before[n])
  }

  lemma {:induction false} ApplyOne(f: Account -> Account, cache: map<string, nat>, todo: set<string>, id: string,
                                    before: seq<Account>, after: seq<Account>)
    requires IsLedger(cache, before) && id in todo && todo <= cache.Keys
    requires AppliedToDone(f, cache, todo, before, after)
    ensures var n := cache[id];
      && n < |after| && after[n] == before[n]
      && AppliedToDone(f, cache, todo - {id}, before, after[n := f(after[n])])
  {
  }
}
