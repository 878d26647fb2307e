/** The simulated exchange with connected microgrids, the last step of
    `execute_balancing_strategy`: one pass over the peers with a running
    balance; a balance above 20 kW exports, one below -10 kW imports, at most
    10 kW per peer. */
module Exchange {
  import opened Quantities
  import opened Sequences

  datatype Direction = Export | Import

  /** One entry of the `grid_exchange` report list. */
  datatype GridExchange = GridExchange(peer: string, direction: Direction, amount: real)

  /** Above this balance the surplus is shared. */
  const ExportThreshold: real := 20.0
  /** Below this balance power is imported. */
  const ImportThreshold: real := -10.0
  /** The most exchanged with one peer. */
  const MaxExchange: real := 10.0

  /** The exchanges of one pass over `peers`, starting from `balance`. */
  function ExchangePlan(peers: seq<string>, balance: real): seq<GridExchange>
    decreases |peers|
  {
    if peers == [] then []
    else if balance > ExportThreshold then
      var amount := Min(MaxExchange, balance - ExportThreshold);
      [GridExchange(peers[0], Export, amount)] + ExchangePlan(peers[1..], balance - amount)
    else if balance < ImportThreshold then
      var amount := Min(MaxExchange, -balance + ImportThreshold);
      [GridExchange(peers[0], Import, amount)] + ExchangePlan(peers[1..], balance + amount)
    else ExchangePlan(peers[1..], balance)
  }

  function TotalExchanged(xs: seq<GridExchange>): real
    decreases |xs|
  {
    if xs == [] then 0.0 else xs[0].amount + TotalExchanged(xs[1..])
  }

  /** At most one exchange per peer, in list order, each of more than 0 and
      at most 10 kW: the exchanges go to a prefix of the peers. */
  lemma {:induction false} ExchangeShape(peers: seq<string>, balance: real)
    ensures |ExchangePlan(peers, balance)| <= |peers|
    ensures forall i :: 0 <= i < |ExchangePlan(peers, balance)| ==>
              ExchangePlan(peers, balance)[i].peer == peers[i]
              && 0.0 < ExchangePlan(peers, balance)[i].amount <= MaxExchange
    decreases |peers|
  {
    if peers != [] {
      if balance > ExportThreshold {
        var amount := Min(MaxExchange, balance - ExportThreshold);
        ExchangeShape(peers[1..], balance - amount);
        var rest := ExchangePlan(peers[1..], balance - amount);
        assert ExchangePlan(peers, balance) == [GridExchange(peers[0], Export, amount)] + rest;
      } else if balance < ImportThreshold {
        var amount := Min(MaxExchange, -balance + ImportThreshold);
        ExchangeShape(peers[1..], balance + amount);
        var rest := ExchangePlan(peers[1..], balance + amount);
        assert ExchangePlan(peers, balance) == [GridExchange(peers[0], Import, amount)] + rest;
      } else {
        ExchangeBalanced(peers, balance);
      }
    }
  }

  /** A balance within [-10, 20] exchanges nothing. */
  lemma {:induction false} ExchangeBalanced(peers: seq<string>, balance: real)
    requires ImportThreshold <= balance <= ExportThreshold
    ensures ExchangePlan(peers, balance) == []
    decreases |peers|
  {
    if peers != [] {
      ExchangeBalanced(peers[1..], balance);
    }
  }

  /** Exporting: every exchange is an export, the running balance never
      drops below 20, and the total exported is min(10 * peers, balance - 20). */
  lemma {:induction false} ExchangeExports(peers: seq<string>, balance: real)
    requires balance > ExportThreshold
    ensures forall i :: 0 <= i < |ExchangePlan(peers, balance)| ==> ExchangePlan(peers, balance)[i].direction == Export
    ensures TotalExchanged(ExchangePlan(peers, balance))
         == Min(MaxExchange * |peers| as real, balance - ExportThreshold)
    ensures balance - TotalExchanged(ExchangePlan(peers, balance)) >= ExportThreshold
    decreases |peers|
  {
    if peers != [] {
      var amount := Min(MaxExchange, balance - ExportThreshold);
      var rest := ExchangePlan(peers[1..], balance - amount);
      assert ExchangePlan(peers, balance) == [GridExchange(peers[0], Export, amount)] + rest;
      if balance - amount > ExportThreshold {
        ExchangeExports(peers[1..], balance - amount);
        assert amount == MaxExchange;
      } else {
        ExchangeBalanced(peers[1..], balance - amount);
        assert amount == balance - ExportThreshold;
      }
    }
  }

  /** Importing: every exchange is an import, the running balance never
      rises above -10, and the total imported is min(10 * peers, |balance| - 10). */
  lemma {:induction false} ExchangeImports(peers: seq<string>, balance: real)
    requires balance < ImportThreshold
    ensures forall i :: 0 <= i < |ExchangePlan(peers, balance)| ==> ExchangePlan(peers, balance)[i].direction == Import
    ensures TotalExchanged(ExchangePlan(peers, balance))
         == Min(MaxExchange * |peers| as real, -balance + ImportThreshold)
    ensures balance + TotalExchanged(ExchangePlan(peers, balance)) <= ImportThreshold
    decreases |peers|
  {
    if peers != [] {
      var amount := Min(MaxExchange, -balance + ImportThreshold);
      var rest := ExchangePlan(peers[1..], balance + amount);
      assert ExchangePlan(peers, balance) == [GridExchange(peers[0], Import, amount)] + rest;
      if balance + amount < ImportThreshold {
        ExchangeImports(peers[1..], balance + amount);
        assert amount == MaxExchange;
      } else {
        ExchangeBalanced(peers[1..], balance + amount);
        assert amount == -balance + ImportThreshold;
      }
    }
  }

  /** The exchange loop, with the running balance. */
  method ExchangeWithPeers(peers: seq<string>, balance: real) returns (exchanges: seq<GridExchange>)
    ensures exchanges == ExchangePlan(peers, balance)
  {
    exchanges := [];
    var running := balance;
    var i := 0;
    while i < |peers|
      invariant 0 <= i <= |peers|
      invariant exchanges + ExchangePlan(peers[i..], running) == ExchangePlan(peers, balance)
    {
      ExchangeStep(peers, i, running);
      if running > ExportThreshold {
        var amount := Min(MaxExchange, running - ExportThreshold);
        AppendAssoc(exchanges, [GridExchange(peers[i], Export, amount)], ExchangePlan(peers[i + 1..], running - amount));
        exchanges := exchanges + [GridExchange(peers[i], Export, amount)];
        running := running - amount;
      } else if running < ImportThreshold {
        var amount := Min(MaxExchange, -running + ImportThreshold);
        AppendAssoc(exchanges, [GridExchange(peers[i], Import, amount)], ExchangePlan(peers[i + 1..], running + amount));
        exchanges := exchanges + [GridExchange(peers[i], Import, amount)];
        running := running + amount;
      }
      i := i + 1;
    }
  }

  /** One turn of the exchange loop, at peer `i`. */
  lemma ExchangeStep(peers: seq<string>, i: nat, running: real)
    requires i < |peers|
    ensures ExchangePlan(peers[i..], running)
         == if running > ExportThreshold then
              var amount := Min(MaxExchange, running - ExportThreshold);
              [GridExchange(peers[i], Export, amount)] + ExchangePlan(peers[i + 1..], running - amount)
            else if running < ImportThreshold then
              var amount := Min(MaxExchange, -running + ImportThreshold);
              [GridExchange(peers[i], Import, amount)] + ExchangePlan(peers[i + 1..], running + amount)
            else ExchangePlan(peers[i + 1..], running)
  {
    assert peers[i..][1..] == peers[i + 1..];
  }
}
