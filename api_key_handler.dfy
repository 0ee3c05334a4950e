/** The credential endpoints (backend/internal/handler/api_key_handler.go):
    listing with masked secrets, and saving a list of credentials. */
module ApiKeyHandler {
  import opened Wrappers
  import opened Model
  import Sql
  import ApiKeyRepository

  /** `maskString`: at most the first and last four bytes survive. Bytes
      are modelled as characters. */
  function Mask(s: string): (r: string)
    ensures |r| == 4 || |r| == 12
    ensures |s| <= 8 ==> r == "****"
    ensures |s| > 8 ==> |r| == 12 && r[..4] == s[..4] && r[4..8] == "****" && r[8..] == s[|s| - 4..]
  {
    if |s| <= 8 then "****" else s[..4] + "****" + s[|s| - 4..]
  }

  /** The mask reveals nothing of the middle of a secret: two secrets with
      the same first and last four bytes, or two short ones, mask alike. */
  lemma MaskHidesMiddle(s: string, t: string)
    requires (|s| <= 8 && |t| <= 8) || (|s| > 8 && |t| > 8 && s[..4] == t[..4] && s[|s| - 4..] == t[|t| - 4..])
    ensures Mask(s) == Mask(t)
  {
  }

  /** The per-key masking step of `GetAPIKeys`: an empty field stays empty. */
  function MaskKey(k: ApiKey): (m: ApiKey)
    ensures m == k.(apiKey := m.apiKey, apiSecret := m.apiSecret)
    ensures (m.apiKey == "") == (k.apiKey == "") && (m.apiSecret == "") == (k.apiSecret == "")
    ensures k.apiKey != "" ==> m.apiKey == Mask(k.apiKey)
    ensures k.apiSecret != "" ==> m.apiSecret == Mask(k.apiSecret)
  {
    var withKey := if k.apiKey != "" then k.(apiKey := Mask(k.apiKey)) else k;
    if withKey.apiSecret != "" then withKey.(apiSecret := Mask(withKey.apiSecret)) else withKey
  }

  /** The masking loop, in place over the slice of keys. */
  method MaskAll(a: array<ApiKey>)
    modifies a
    ensures forall i :: 0 <= i < a.Length ==> a[i] == MaskKey(old(a[i]))
  {
    for i := 0 to a.Length
      invariant forall j :: 0 <= j < i ==> a[j] == MaskKey(old(a[j]))
      invariant forall j :: i <= j < a.Length ==> a[j] == old(a[j])
    {
      if a[i].apiKey != "" {
        a[i] := a[i].(apiKey := Mask(a[i].apiKey));
      }
      if a[i].apiSecret != "" {
        a[i] := a[i].(apiSecret := Mask(a[i].apiSecret));
      }
    }
  }

  /** The keys copied into a fresh slice and masked there. */
  method MaskKeys(ks: seq<ApiKey>) returns (ms: seq<ApiKey>)
    ensures |ms| == |ks| && forall i :: 0 <= i < |ks| ==> ms[i] == MaskKey(ks[i])
  {
    var a := new ApiKey[|ks|](i requires 0 <= i < |ks| => ks[i]);
    MaskAll(a);
    ms := a[..];
  }

  /** The masked listing keeps the number, the order and every other field
      of the keys. */
  lemma MaskedListing(ks: seq<ApiKey>, ms: seq<ApiKey>)
    requires |ms| == |ks| && forall i :: 0 <= i < |ks| ==> ms[i] == MaskKey(ks[i])
    ensures forall i :: 0 <= i < |ks| ==>
      && ms[i].id == ks[i].id && ms[i].exchange == ks[i].exchange && ms[i].isActive == ks[i].isActive
      && ms[i].createdAt == ks[i].createdAt && ms[i].updatedAt == ks[i].updatedAt
      && |ms[i].apiKey| <= 12 && |ms[i].apiSecret| <= 12
  {
  }

  /** What a handler writes back. */
  datatype Reply = Keys(keys: seq<ApiKey>) | Saved | HttpError(status: int, message: string)

  const StatusBadRequest := 400
  const StatusNotFound := 404
  const StatusInternalServerError := 500

  /** The credentials upserted one after another, the `i`-th at `clock(i)`. */
  function UpsertPrefix(t: ApiKeyRepository.Table, keys: seq<ApiKey>, clock: nat -> int, k: nat): ApiKeyRepository.Table
    requires k <= |keys|
  {
    if k == 0 then t else ApiKeyRepository.Upserted(UpsertPrefix(t, keys, clock, k - 1), keys[k - 1], clock(k - 1))
  }

  lemma UpsertPrefixStep(t: ApiKeyRepository.Table, keys: seq<ApiKey>, clock: nat -> int, k: nat)
    requires 0 < k <= |keys|
    ensures UpsertPrefix(t, keys, clock, k) == ApiKeyRepository.Upserted(UpsertPrefix(t, keys, clock, k - 1), keys[k - 1], clock(k - 1))
  {
  }

  lemma {:induction false} UpsertPrefixValid(t: ApiKeyRepository.Table, keys: seq<ApiKey>, clock: nat -> int, k: nat)
    requires k <= |keys| && ApiKeyRepository.Valid(t)
    ensures ApiKeyRepository.Valid(UpsertPrefix(t, keys, clock, k))
  {
    if k > 0 {
      UpsertPrefixValid(t, keys, clock, k - 1);
      ApiKeyRepository.UpsertValid(UpsertPrefix(t, keys, clock, k - 1), keys[k - 1], clock(k - 1));
    }
  }

  /** The table has an active row for the key's exchange holding its key
      and secret. */
  predicate Holds(t: ApiKeyRepository.Table, key: ApiKey) {
    var r := ApiKeyRepository.Row(t, key.exchange);
    r.Some? && r.value.isActive && r.value.apiKey == key.apiKey && r.value.apiSecret == key.apiSecret
  }

  /** One save keeps every earlier credential of another exchange and
      makes its own hold. */
  lemma UpsertHolds(before: ApiKeyRepository.Table, after: ApiKeyRepository.Table, key: ApiKey, now: int, other: ApiKey)
    requires ApiKeyRepository.Valid(before) && after == ApiKeyRepository.Upserted(before, key, now)
    requires other == key || (Holds(before, other) && other.exchange != key.exchange)
    ensures Holds(after, other)
  {
    if other == key {
      ApiKeyRepository.UpsertActivates(before, key, now);
    } else {
      ApiKeyRepository.RowOtherExchange(before, key, now, other.exchange);
    }
  }

  /** Every credential saved before the loop stopped has an active row
      holding the key and secret of its exchange's last save. */
  lemma {:induction false} SavedKeysStay(t: ApiKeyRepository.Table, keys: seq<ApiKey>, clock: nat -> int, k: nat, j: nat)
    requires j < k <= |keys| && ApiKeyRepository.Valid(t)
    requires forall m :: j < m < k ==> keys[m].exchange != keys[j].exchange
    ensures Holds(UpsertPrefix(t, keys, clock, k), keys[j])
  {
    var before := UpsertPrefix(t, keys, clock, k - 1);
    UpsertPrefixStep(t, keys, clock, k);
    UpsertPrefixValid(t, keys, clock, k - 1);
    if j < k - 1 {
      SavedKeysStay(t, keys, clock, k - 1, j);
    }
    UpsertHolds(before, UpsertPrefix(t, keys, clock, k), keys[k - 1], clock(k - 1), keys[j]);
  }

  /** The index of the first failing save, or `n` when none of the first
      `n` fails. */
  function FirstFailure(faults: nat -> Option<string>, n: nat, i: nat): (k: nat)
    requires i <= n
    ensures i <= k <= n
    ensures k < n ==> faults(k).Some?
    ensures forall m :: i <= m < k ==> faults(m).None?
    decreases n - i
  {
    if i == n then n else if faults(i).Some? then i else FirstFailure(faults, n, i + 1)
  }

  class ApiKeyHandler {
    const table: ApiKeyRepository.ApiKeyTable

    constructor (table: ApiKeyRepository.ApiKeyTable)
      ensures this.table == table
    {
      this.table := table;
    }

    /** `GetAPIKeys`: the one key asked for (404 when there is none) or all
        of them, masked. */
    method GetAPIKeys(exchange: string, fault: Option<string>, listFault: Sql.Fault) returns (reply: Reply)
      requires table.Inv()
      ensures exchange != "" ==>
        match ApiKeyRepository.Row(table.State(), exchange)
        case Some(k) => reply == (if fault.None? then Keys([MaskKey(k)]) else HttpError(StatusNotFound, "API key not found"))
        case None => reply == HttpError(StatusNotFound, "API key not found")
      ensures exchange == "" && Sql.ScanResult(table.rows, listFault).Err? ==>
        reply == HttpError(StatusInternalServerError, Sql.ScanResult(table.rows, listFault).error)
      ensures exchange == "" && Sql.ScanResult(table.rows, listFault).Ok? ==>
        reply.Keys? && |reply.keys| == |table.rows| &&
        forall i :: 0 <= i < |reply.keys| ==> reply.keys[i] == MaskKey(ApiKeyRepository.SortedRows(table.State())[i])
    {
      var ks: seq<ApiKey>;
      if exchange != "" {
        var key := table.GetByExchange(exchange, fault);
        if key.Err? {
          return HttpError(StatusNotFound, "API key not found");
        }
        ks := [key.value];
      } else {
        var all := table.GetAll(listFault);
        if all.Err? {
          return HttpError(StatusInternalServerError, all.error);
        }
        ks := all.value;
      }
      var ms := MaskKeys(ks);
      reply := Keys(ms);
    }

    /** The save loop of `SaveAPIKeys`: the `i`-th upsert at `clock(i)`,
        stopping at the first failing save. */
    method SaveInOrder(keys: seq<ApiKey>, clock: nat -> int, faults: nat -> Option<string>) returns (err: Option<string>)
      requires table.Inv()
      modifies table
      ensures table.Inv()
      ensures table.State() == UpsertPrefix(old(table.State()), keys, clock, FirstFailure(faults, |keys|, 0))
      ensures err == (if FirstFailure(faults, |keys|, 0) < |keys| then faults(FirstFailure(faults, |keys|, 0)) else None)
    {
      ghost var start := table.State();
      for i := 0 to |keys|
        invariant table.Inv()
        invariant NoFailureBefore(faults, i)
        invariant table.State() == UpsertPrefix(start, keys, clock, i)
      {
        err := table.Upsert(keys[i], clock(i), faults(i));
        if err.Some? {
          FirstFailureAt(faults, |keys|, 0, i);
          return;
        }
        assert NoFailureBefore(faults, i + 1) by {
          assert faults(i).None?;
        }
        assert table.State() == UpsertPrefix(start, keys, clock, i + 1) by {
          UpsertPrefixStep(start, keys, clock, i + 1);
        }
      }
      FirstFailureAt(faults, |keys|, 0, |keys|);
      err := None;
    }

    /** `SaveAPIKeys`: the first failing save answers 500 and leaves the
        keys before it saved. */
    method SaveAPIKeys(body: Result<seq<ApiKey>, string>, clock: nat -> int, faults: nat -> Option<string>)
      returns (reply: Reply)
      requires table.Inv()
      modifies table
      ensures table.Inv()
      ensures body.Err? ==> reply == HttpError(StatusBadRequest, "Invalid request body") && table.State() == old(table.State())
      ensures body.Ok? ==>
        var k := FirstFailure(faults, |body.value|, 0);
        && table.State() == UpsertPrefix(old(table.State()), body.value, clock, k)
        && reply == (if k < |body.value| then HttpError(StatusInternalServerError, faults(k).value) else Saved)
    {
      if body.Err? {
        return HttpError(StatusBadRequest, "Invalid request body");
      }
      var err := SaveInOrder(body.value, clock, faults);
      reply := if err.Some? then HttpError(StatusInternalServerError, err.value) else Saved;
    }
  }

  /** None of the first `k` saves fails. */
  predicate NoFailureBefore(faults: nat -> Option<string>, k: nat) {
    forall m :: 0 <= m < k ==> faults(m).None?
  }

  /** The first failure is the one the loop stops at. */
  lemma {:induction false} FirstFailureAt(faults: nat -> Option<string>, n: nat, i: nat, k: nat)
    requires i <= k <= n
    requires forall m :: i <= m < k ==> faults(m).None?
    requires k < n ==> faults(k).Some?
    ensures FirstFailure(faults, n, i) == k
    decreases k - i
  {
    if i < k {
      FirstFailureAt(faults, n, i + 1, k);
    }
  }
}
