/** The periodic position sync of backend/pkg/server/server.go: each tick
    looks up the exchange's credentials, fetches its closed positions,
    saves them and broadcasts an update. */
module SyncService {
  import opened Wrappers
  import opened Model
  import Sql
  import PositionRepository
  import ApiKeyRepository
  import PositionService

  /** `client.GetPositionsWithContext(ctx)` of the client built from
      `(exchange, apiKey, apiSecret)`; the adapters model each exchange's
      fetch, here it is a parameter. */
  type PositionFetch = (string, string, string) -> Result<seq<Position>, string>

  /** The `"positions_update"` message handed to the websocket hub. */
  datatype Message = Message(kind: string, exchange: string, positions: seq<Position>, count: int)

  const UpdateKind := "positions_update"

  /** How one `sync` call ends. */
  datatype Step =
    | NoKey(err: string)
    | NotConfigured
    | UnknownExchange
    | FetchFailed(err: string)
    | SaveFailed(err: string)
    | Synced(message: Message)

  /** The exchanges `sync` has a client for. */
  predicate Known(exchange: string) {
    exchange == "bybit" || exchange == "mexc" || exchange == "gate" || exchange == "bitget"
  }

  /** The decision sequence of `sync`, given the key lookup, the fetch and
      the batch save's fault. */
  function Decide(lookup: Result<ApiKey, string>, exchange: string, fetch: PositionFetch,
                  fault: PositionRepository.BatchFault): Step
  {
    if lookup.Err? then NoKey(lookup.error)
    else if lookup.value.apiKey == "" || lookup.value.apiSecret == "" then NotConfigured
    else if !Known(exchange) then UnknownExchange
    else match fetch(exchange, lookup.value.apiKey, lookup.value.apiSecret)
      case Err(e) => FetchFailed(e)
      case Ok(ps) =>
        if fault.StatementFails? && fault.index < |ps| then SaveFailed(fault.err)
        else Synced(Message(UpdateKind, exchange, ps, |ps|))
  }

  /** A broadcast happens exactly when every step succeeded, and it carries
      the exchange, the positions fetched and their count, 0 included. */
  lemma SyncedExactlyOnSuccess(lookup: Result<ApiKey, string>, exchange: string, fetch: PositionFetch,
                               fault: PositionRepository.BatchFault)
    ensures Decide(lookup, exchange, fetch, fault).Synced? <==>
      && lookup.Ok? && lookup.value.apiKey != "" && lookup.value.apiSecret != ""
      && Known(exchange)
      && fetch(exchange, lookup.value.apiKey, lookup.value.apiSecret).Ok?
      && (fault.BatchOk? || fault.index >= |fetch(exchange, lookup.value.apiKey, lookup.value.apiSecret).value|)
    ensures Decide(lookup, exchange, fetch, fault).Synced? ==>
      Decide(lookup, exchange, fetch, fault).message ==
        Message("positions_update", exchange, fetch(exchange, lookup.value.apiKey, lookup.value.apiSecret).value,
                |fetch(exchange, lookup.value.apiKey, lookup.value.apiSecret).value|)
  {
  }

  /** The steps are tried in order: a failed lookup is reported before an
      empty credential, which is reported before an unknown exchange. */
  lemma EarlierFailureWins(lookup: Result<ApiKey, string>, exchange: string, fetch: PositionFetch,
                           fault: PositionRepository.BatchFault)
    ensures lookup.Err? ==> Decide(lookup, exchange, fetch, fault) == NoKey(lookup.error)
    ensures lookup.Ok? && (lookup.value.apiKey == "" || lookup.value.apiSecret == "") ==>
      Decide(lookup, exchange, fetch, fault) == NotConfigured
    ensures lookup.Ok? && lookup.value.apiKey != "" && lookup.value.apiSecret != "" && !Known(exchange) ==>
      Decide(lookup, exchange, fetch, fault) == UnknownExchange
  {
  }

  /** The per-tick environment: the key lookup's fault, the exchange and the
      batch save's fault. */
  datatype Tick = Tick(keyFault: Option<string>, fetch: PositionFetch, saveFault: PositionRepository.BatchFault)

  /** What the ticker/stop `select` delivers, in the order it delivers it. */
  datatype Event = Ticked(env: Tick) | StopSignalled

  /** The number of ticks served before the stop signal. */
  function TicksBeforeStop(events: seq<Event>): (n: nat)
    ensures n <= |events|
  {
    if events == [] || events[0].StopSignalled? then 0
    else 1 + TicksBeforeStop(events[1..])
  }

  /** After the stop signal, no later event runs a sync. */
  lemma {:induction false} NothingAfterStop(events: seq<Event>, later: seq<Event>)
    requires exists i :: 0 <= i < |events| && events[i].StopSignalled?
    ensures TicksBeforeStop(events + later) == TicksBeforeStop(events)
  {
    if !events[0].StopSignalled? {
      assert (events + later)[1..] == events[1..] + later;
      var i :| 0 <= i < |events| && events[i].StopSignalled?;
      assert events[1..][i - 1].StopSignalled?;
      NothingAfterStop(events[1..], later);
    }
  }

  /** Without a stop signal every tick is served. */
  lemma {:induction false} AllTicksServed(events: seq<Event>)
    requires forall i :: 0 <= i < |events| ==> events[i].Ticked?
    ensures TicksBeforeStop(events) == |events|
  {
    if events != [] {
      assert forall i :: 0 <= i < |events[1..]| ==> events[1..][i] == events[i + 1];
      AllTicksServed(events[1..]);
    }
  }

  /** `GetByExchange` on the credential table `ks`, failing with `fault`
      when the query does. */
  function LookupIn(ks: ApiKeyRepository.Table, exchange: string, fault: Option<string>): (r: Result<ApiKey, string>)
    ensures r.Ok? ==> fault.None? && ApiKeyRepository.Row(ks, exchange) == Some(r.value)
    ensures fault.None? && ApiKeyRepository.Row(ks, exchange).None? ==> r == Err(Sql.NoRows)
  {
    if fault.Some? then Err(fault.value)
    else match ApiKeyRepository.Row(ks, exchange)
      case Some(k) => Ok(k)
      case None => Err(Sql.NoRows)
  }

  /** The outcome of the run loop: the position table and the messages
      broadcast, oldest first, after serving `events` from table `t` with
      the credential table `ks` (which the loop never changes). */
  function Run(ks: ApiKeyRepository.Table, exchange: string, events: seq<Event>,
               t: PositionRepository.Table): (r: (PositionRepository.Table, seq<Message>))
    decreases |events|
  {
    if events == [] || events[0].StopSignalled? then (t, [])
    else
      var env := events[0].env;
      var step := Decide(LookupIn(ks, exchange, env.keyFault), exchange, env.fetch, env.saveFault);
      var next := if step.Synced? then PositionRepository.Batch(t, step.message.positions) else t;
      var rest := Run(ks, exchange, events[1..], next);
      (rest.0, (if step.Synced? then [step.message] else []) + rest.1)
  }

  /** At most one broadcast per tick served. */
  lemma {:induction false} RunSendsAtMostOnePerTick(ks: ApiKeyRepository.Table, exchange: string, events: seq<Event>,
                                                    t: PositionRepository.Table)
    ensures |Run(ks, exchange, events, t).1| <= TicksBeforeStop(events)
  {
    if events != [] && !events[0].StopSignalled? {
      var env := events[0].env;
      var step := Decide(LookupIn(ks, exchange, env.keyFault), exchange, env.fetch, env.saveFault);
      RunSendsAtMostOnePerTick(ks, exchange, events[1..],
        if step.Synced? then PositionRepository.Batch(t, step.message.positions) else t);
    }
  }

  /** Every broadcast is a `positions_update` for the service's exchange
      whose count is the number of positions it carries. */
  lemma {:induction false} RunMessagesAreUpdates(ks: ApiKeyRepository.Table, exchange: string, events: seq<Event>,
                                                 t: PositionRepository.Table)
    ensures forall m :: m in Run(ks, exchange, events, t).1 ==>
      m.kind == UpdateKind && m.exchange == exchange && m.count == |m.positions|
  {
    if events != [] && !events[0].StopSignalled? {
      var env := events[0].env;
      var step := Decide(LookupIn(ks, exchange, env.keyFault), exchange, env.fetch, env.saveFault);
      RunMessagesAreUpdates(ks, exchange, events[1..],
        if step.Synced? then PositionRepository.Batch(t, step.message.positions) else t);
    }
  }

  /** Events after the stop signal change neither the table nor the
      broadcasts. */
  lemma {:induction false} RunIgnoresAfterStop(ks: ApiKeyRepository.Table, exchange: string, events: seq<Event>,
                                               later: seq<Event>, t: PositionRepository.Table)
    requires exists i :: 0 <= i < |events| && events[i].StopSignalled?
    ensures Run(ks, exchange, events + later, t) == Run(ks, exchange, events, t)
  {
    if !events[0].StopSignalled? {
      assert (events + later)[1..] == events[1..] + later;
      var i :| 0 <= i < |events| && events[i].StopSignalled?;
      assert events[1..][i - 1].StopSignalled?;
      var env := events[0].env;
      var step := Decide(LookupIn(ks, exchange, env.keyFault), exchange, env.fetch, env.saveFault);
      RunIgnoresAfterStop(ks, exchange, events[1..], later,
        if step.Synced? then PositionRepository.Batch(t, step.message.positions) else t);
    }
  }

  /** When no credential row exists for the exchange, the loop changes
      nothing and broadcasts nothing, however many ticks it serves. */
  lemma {:induction false} RunWithoutKeyIsIdle(ks: ApiKeyRepository.Table, exchange: string, events: seq<Event>,
                                               t: PositionRepository.Table)
    requires ApiKeyRepository.Row(ks, exchange).None?
    ensures Run(ks, exchange, events, t).0 == t && Run(ks, exchange, events, t).1 == []
  {
    if events != [] && !events[0].StopSignalled? {
      var env := events[0].env;
      var step := Decide(LookupIn(ks, exchange, env.keyFault), exchange, env.fetch, env.saveFault);
      assert !step.Synced?;
      RunWithoutKeyIsIdle(ks, exchange, events[1..], t);
    }
  }

  class SyncService {
    const service: PositionService.PositionService
    const keys: ApiKeyRepository.ApiKeyTable
    const exchangeName: string
    /** Every message broadcast so far, oldest first. */
    var sent: seq<Message>

    constructor (service: PositionService.PositionService, keys: ApiKeyRepository.ApiKeyTable, exchangeName: string)
      ensures this.service == service && this.keys == keys && this.exchangeName == exchangeName && sent == []
    {
      this.service := service;
      this.keys := keys;
      this.exchangeName := exchangeName;
      sent := [];
    }

    /** The credential found by `GetAPIKey` (`GetByExchange`) for `exchange`. */
    function Lookup(fault: Option<string>): (r: Result<ApiKey, string>)
      reads keys
      ensures r.Ok? ==> fault.None? && ApiKeyRepository.Row(keys.State(), exchangeName) == Some(r.value)
    {
      LookupIn(keys.State(), exchangeName, fault)
    }

    /** `sync`: positions are saved only after a successful fetch, and
        broadcast only after a successful save. */
    method Sync(env: Tick) returns (step: Step)
      requires service.repo.Inv()
      modifies this, service.repo
      ensures service.repo.Inv()
      ensures step == Decide(old(Lookup(env.keyFault)), exchangeName, env.fetch, env.saveFault)
      ensures sent == old(sent) + (if step.Synced? then [step.message] else [])
      ensures step.Synced? ==> service.repo.State() == PositionRepository.Batch(old(service.repo.State()), step.message.positions)
      ensures !step.Synced? ==> service.repo.State() == old(service.repo.State())
    {
      var key := keys.GetByExchange(exchangeName, env.keyFault);
      assert key == Lookup(env.keyFault);
      if key.Err? {
        return NoKey(key.error);
      }
      if key.value.apiKey == "" || key.value.apiSecret == "" {
        return NotConfigured;
      }
      if !Known(exchangeName) {
        return UnknownExchange;
      }
      var fetched := env.fetch(exchangeName, key.value.apiKey, key.value.apiSecret);
      if fetched.Err? {
        return FetchFailed(fetched.error);
      }
      var err := service.SavePositionsBatch(fetched.value, env.saveFault);
      if err.Some? {
        return SaveFailed(err.value);
      }
      var message := Message(UpdateKind, exchangeName, fetched.value, |fetched.value|);
      sent := sent + [message];
      step := Synced(message);
    }

    /** `Start`: one sync per tick until the stop signal. */
    method Start(events: seq<Event>) returns (runs: nat)
      requires service.repo.Inv()
      modifies this, service.repo
      ensures service.repo.Inv()
      ensures runs == TicksBeforeStop(events)
      ensures service.repo.State() == Run(keys.State(), exchangeName, events, old(service.repo.State())).0
      ensures sent == old(sent) + Run(keys.State(), exchangeName, events, old(service.repo.State())).1
    {
      ghost var outcome := Run(keys.State(), exchangeName, events, service.repo.State());
      runs := 0;
      var i := 0;
      while i < |events| && events[i].Ticked?
        invariant 0 <= i <= |events| && runs == i
        invariant TicksBeforeStop(events) == i + TicksBeforeStop(events[i..])
        invariant service.repo.Inv()
        invariant Run(keys.State(), exchangeName, events[i..], service.repo.State()).0 == outcome.0
        invariant sent + Run(keys.State(), exchangeName, events[i..], service.repo.State()).1 == old(sent) + outcome.1
      {
        assert events[i..][1..] == events[i + 1..];
        var _ := Sync(events[i].env);
        runs, i := runs + 1, i + 1;
      }
    }
  }
}
