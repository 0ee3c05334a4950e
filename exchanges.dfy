/** The exchanges the frontend offers (frontend/src/config/exchanges.ts). */
module FrontendExchanges {
  import opened Wrappers

  datatype ExchangeConfig = ExchangeConfig(id: string, name: string, icon: string, apiKeyLabel: string, apiSecretLabel: string)

  const EXCHANGES: seq<ExchangeConfig> := [
    ExchangeConfig("mexc", "MEXC", "bi-currency-exchange", "API Key", "API Secret"),
    ExchangeConfig("bybit", "Bybit", "bi-box", "API Key", "API Secret"),
    ExchangeConfig("gate", "Gate.io", "bi-door-open", "API Key", "API Secret"),
    ExchangeConfig("bitget", "Bitget", "bi-wallet2", "API Key", "Secret Key")
  ]

  /** `Array.prototype.find` on the id: the first entry with that id. */
  function FindById(cs: seq<ExchangeConfig>, id: string): (r: Option<ExchangeConfig>)
    ensures r.Some? ==> r.value.id == id
    ensures r.Some? ==> exists i :: 0 <= i < |cs| && cs[i] == r.value && (forall j :: 0 <= j < i ==> cs[j].id != id)
    ensures r.None? <==> forall i :: 0 <= i < |cs| ==> cs[i].id != id
  {
    if cs == [] then None
    else if cs[0].id == id then Some(cs[0])
    else
      var r := FindById(cs[1..], id);
      assert r.Some? ==> exists i :: 0 <= i < |cs| && cs[i] == r.value && (forall j :: 0 <= j < i ==> cs[j].id != id) by {
        if r.Some? {
          var i :| 0 <= i < |cs[1..]| && cs[1..][i] == r.value && (forall j :: 0 <= j < i ==> cs[1..][j].id != id);
          assert cs[i + 1] == r.value;
          assert forall j :: 0 <= j < i + 1 ==> cs[j].id != id by {
            forall j | 0 <= j < i + 1 ensures cs[j].id != id {
              if j > 0 {
                assert cs[j] == cs[1..][j - 1];
              }
            }
          }
        }
      }
      r
  }

  /** `getExchangeById`. */
  function GetExchangeById(id: string): (r: Option<ExchangeConfig>)
    ensures r.Some? ==> r.value in EXCHANGES && r.value.id == id
    ensures r.None? <==> forall i :: 0 <= i < |EXCHANGES| ==> EXCHANGES[i].id != id
  {
    FindById(EXCHANGES, id)
  }

  /** `getExchangeIds`: the ids in table order. */
  function GetExchangeIds(): (r: seq<string>)
    ensures |r| == |EXCHANGES|
    ensures forall i :: 0 <= i < |r| ==> r[i] == EXCHANGES[i].id
  {
    seq(|EXCHANGES|, i requires 0 <= i < |EXCHANGES| => EXCHANGES[i].id)
  }

  /** The four exchanges, in order, each listed once. */
  lemma IdsInOrder()
    ensures GetExchangeIds() == ["mexc", "bybit", "gate", "bitget"]
    ensures forall i, j :: 0 <= i < j < |GetExchangeIds()| ==> GetExchangeIds()[i] != GetExchangeIds()[j]
  {
    var ids := GetExchangeIds();
    assert ids[0] == "mexc" && ids[1] == "bybit" && ids[2] == "gate" && ids[3] == "bitget";
  }

  /** A lookup succeeds exactly for the listed ids, and then returns the
      entry listed under that id. */
  lemma ByIdDefinedIffListed(id: string)
    ensures GetExchangeById(id).Some? <==> id in GetExchangeIds()
    ensures forall i :: 0 <= i < |EXCHANGES| && EXCHANGES[i].id == id ==> GetExchangeById(id) == Some(EXCHANGES[i])
  {
    var ids := GetExchangeIds();
    if id in ids {
      var i :| 0 <= i < |ids| && ids[i] == id;
      assert EXCHANGES[i].id == id;
    }
    IdsInOrder();
  }
}
