/** The balance aggregation (backend/internal/service/balance_service.go):
    ask every usable credential's exchange for its balance and list the
    positive ones. */
module BalanceService {
  import opened Wrappers
  import opened Model
  import opened Ordering
  import Sql
  import ApiKeyRepository

  /** `client.GetBalance(ctx)` for a client built from `(exchange, apiKey,
      apiSecret)`. Each adapter's own balance rule is modelled with the
      adapter; here the call is a parameter. */
  type BalanceFetch = (string, string, string) -> Result<real, string>

  /** The exchanges `getExchangeBalance` builds a client for. */
  predicate Known(exchange: string) {
    exchange == "bybit" || exchange == "mexc" || exchange == "gate" || exchange == "bitget"
  }

  /** `getExchangeBalance`: an exchange without a client has balance 0 and
      no error. */
  function ExchangeBalanceOf(exchange: string, apiKey: string, apiSecret: string, fetch: BalanceFetch): (r: Result<real, string>)
    ensures !Known(exchange) ==> r == Ok(0.0)
    ensures Known(exchange) ==> r == fetch(exchange, apiKey, apiSecret)
  {
    if Known(exchange) then fetch(exchange, apiKey, apiSecret) else Ok(0.0)
  }

  /** A credential the loop does not skip outright. */
  predicate Usable(k: ApiKey) {
    k.isActive && k.apiKey != "" && k.apiSecret != ""
  }

  /** What one credential adds to the list: its balance when it is usable,
      the exchange answers, and the balance is positive. */
  function EntryOf(k: ApiKey, fetch: BalanceFetch): seq<ExchangeBalance> {
    if !Usable(k) then []
    else match ExchangeBalanceOf(k.exchange, k.apiKey, k.apiSecret, fetch)
      case Err(_) => []
      case Ok(b) => if b > 0.0 then [ExchangeBalance(k.exchange, b)] else []
  }

  /** The per-exchange list `GetTotalBalance` builds from the credentials. */
  function Balances(keys: seq<ApiKey>, fetch: BalanceFetch): seq<ExchangeBalance> {
    if keys == [] then [] else EntryOf(keys[0], fetch) + Balances(keys[1..], fetch)
  }

  function BalanceField(e: ExchangeBalance): real { e.balance }

  /** Entries come in credential order: the list of a concatenation is the
      concatenation of the lists. */
  lemma {:induction false} BalancesAppend(a: seq<ApiKey>, b: seq<ApiKey>, fetch: BalanceFetch)
    ensures Balances(a + b, fetch) == Balances(a, fetch) + Balances(b, fetch)
  {
    if a == [] {
      assert a + b == b;
    } else {
      assert (a + b)[1..] == a[1..] + b;
      BalancesAppend(a[1..], b, fetch);
    }
  }

  /** An entry is exactly a usable credential of a known exchange whose
      balance came back positive. */
  lemma {:induction false} BalancesMembers(keys: seq<ApiKey>, fetch: BalanceFetch, e: ExchangeBalance)
    ensures e in Balances(keys, fetch) <==>
      exists i :: 0 <= i < |keys| && Usable(keys[i]) && Known(keys[i].exchange) &&
        fetch(keys[i].exchange, keys[i].apiKey, keys[i].apiSecret) == Ok(e.balance) &&
        e.balance > 0.0 && e.exchange == keys[i].exchange
  {
    if keys != [] {
      BalancesMembers(keys[1..], fetch, e);
      assert forall i :: 1 <= i < |keys| ==> keys[i] == keys[1..][i - 1];
      if e in EntryOf(keys[0], fetch) {
        assert Usable(keys[0]) && Known(keys[0].exchange);
      }
    }
  }

  /** Every listed balance is positive, and no credential adds more than one entry. */
  lemma {:induction false} BalancesPositive(keys: seq<ApiKey>, fetch: BalanceFetch)
    ensures |Balances(keys, fetch)| <= |keys|
    ensures forall i :: 0 <= i < |Balances(keys, fetch)| ==> Balances(keys, fetch)[i].balance > 0.0
  {
    if keys != [] {
      BalancesPositive(keys[1..], fetch);
    }
  }

  /** The exchange is never asked about a credential the loop skips: the
      list depends on the answers for usable credentials only. */
  lemma {:induction false} SkippedKeysNotQueried(keys: seq<ApiKey>, f: BalanceFetch, g: BalanceFetch)
    requires forall i :: 0 <= i < |keys| && Usable(keys[i]) ==>
      f(keys[i].exchange, keys[i].apiKey, keys[i].apiSecret) == g(keys[i].exchange, keys[i].apiKey, keys[i].apiSecret)
    ensures Balances(keys, f) == Balances(keys, g)
  {
    if keys != [] {
      assert forall i :: 1 <= i < |keys| ==> keys[i] == keys[1..][i - 1];
      SkippedKeysNotQueried(keys[1..], f, g);
    }
  }

  /** The list after one more credential. */
  lemma BalancesStep(ks: seq<ApiKey>, i: nat, fetch: BalanceFetch)
    requires i < |ks|
    ensures Balances(ks[..i + 1], fetch) == Balances(ks[..i], fetch) + EntryOf(ks[i], fetch)
  {
    assert ks[..i + 1] == ks[..i] + [ks[i]];
    BalancesAppend(ks[..i], [ks[i]], fetch);
    assert Balances([ks[i]], fetch) == EntryOf(ks[i], fetch) + [];
  }

  /** The loop of `GetTotalBalance` over the credentials. */
  method Aggregate(ks: seq<ApiKey>, fetch: BalanceFetch) returns (total: real, balances: seq<ExchangeBalance>)
    ensures balances == Balances(ks, fetch)
    ensures total == SumBy(balances, BalanceField)
  {
    total, balances := 0.0, [];
    for i := 0 to |ks|
      invariant balances == Balances(ks[..i], fetch)
      invariant total == SumBy(balances, BalanceField)
    {
      BalancesStep(ks, i, fetch);
      var k := ks[i];
      if !k.isActive || k.apiKey == "" || k.apiSecret == "" {
        continue;
      }
      var balance := ExchangeBalanceOf(k.exchange, k.apiKey, k.apiSecret, fetch);
      if balance.Err? {
        continue;
      }
      if balance.value > 0.0 {
        SumByAppend(balances, ExchangeBalance(k.exchange, balance.value), BalanceField);
        balances := balances + [ExchangeBalance(k.exchange, balance.value)];
        total := total + balance.value;
      }
    }
    assert ks[..|ks|] == ks;
  }

  class BalanceService {
    const keys: ApiKeyRepository.ApiKeyTable

    constructor (keys: ApiKeyRepository.ApiKeyTable)
      ensures this.keys == keys
    {
      this.keys := keys;
    }

    /** `GetTotalBalance`: `(0, nil, err)` when the credentials cannot be
        read; otherwise the list over the credentials in exchange order and
        its total. */
    method GetTotalBalance(fault: Sql.Fault, fetch: BalanceFetch)
      returns (total: real, balances: seq<ExchangeBalance>, err: Option<string>)
      requires keys.Inv()
      ensures err.None? <==> Sql.ScanResult(keys.rows, fault).Ok?
      ensures err.Some? ==> total == 0.0 && balances == []
      ensures err.None? ==> balances == Balances(ApiKeyRepository.SortedRows(keys.State()), fetch)
      ensures total == SumBy(balances, BalanceField)
    {
      var all := keys.GetAll(fault);
      if all.Err? {
        return 0.0, [], Some(all.error);
      }
      total, balances := Aggregate(all.value, fetch);
      err := None;
    }
  }
}
