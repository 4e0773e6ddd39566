/** Balance changes derived from a transaction's events and internal transfers. */
module BalanceChanges {
  import opened Common
  import opened Texts

  /** Lower-case `0x` text of 20 bytes. */
  type Address = string

  const ZERO_ADDRESS: Address := "0x0000000000000000000000000000000000000000"
  const TRANSFER_TOPIC: string := "0xddf252ad1be2c89b69c2b068fc378daa952ba7f163c4a11628f55a4df523b3ef"

  /** `'0x' + topic.slice(-40).toLowerCase()`. */
  function TopicAddress(topic: string): Address {
    "0x" + Lower(if |topic| > 40 then topic[|topic| - 40..] else topic)
  }

  /** A log with its topics, and its data as the integer it encodes; the emitting
      address and the topics may be missing. */
  datatype Log = Log(address: string, topics: Option<seq<string>>, data: int)

  /** A Transfer of the token: its sender, receiver and amount. */
  predicate IsTransfer(log: Log, token: Address) {
    log.address != "" && log.topics.Some? && Lower(log.address) == token &&
    |log.topics.value| == 3 && Lower(log.topics.value[0]) == TRANSFER_TOPIC
  }

  function Sender(log: Log): Address
    requires log.topics.Some? && |log.topics.value| == 3
  {
    TopicAddress(log.topics.value[1])
  }

  function Receiver(log: Log): Address
    requires log.topics.Some? && |log.topics.value| == 3
  {
    TopicAddress(log.topics.value[2])
  }

  // ---- The ledger the events come from ----

  /** Balances by address, zero where absent. The zero address holds none: minting
      and burning use it as a sentinel. */
  type Ledger = map<Address, int>

  function Balance(ledger: Ledger, a: Address): int {
    if a in ledger then ledger[a] else 0
  }

  function Credited(ledger: Ledger, a: Address, amount: int): Ledger {
    if a == ZERO_ADDRESS then ledger else ledger[a := Balance(ledger, a) + amount]
  }

  /** One transfer: the sender is debited, then the receiver credited. */
  function Transferred(ledger: Ledger, log: Log, token: Address): Ledger {
    if IsTransfer(log, token)
    then Credited(Credited(ledger, Sender(log), -log.data), Receiver(log), log.data)
    else ledger
  }

  function Replayed(ledger: Ledger, logs: seq<Log>, token: Address): Ledger {
    if logs == [] then ledger else Transferred(Replayed(ledger, logs[..|logs| - 1], token), logs[|logs| - 1], token)
  }

  /** A transfer takes the amount from its sender and gives it to its receiver, each
      named by the last 40 digits of its topic; any other log moves nothing. */
  lemma TransferMoves(ledger: Ledger, token: Address, topic: string, from: string, to: string, pad: string,
                      amount: int)
    requires |from| == |to| == 40 && "0x" + Lower(from) != "0x" + Lower(to)
    requires "0x" + Lower(from) != ZERO_ADDRESS && "0x" + Lower(to) != ZERO_ADDRESS && token != ""
    requires Lower(token) == token && Lower(topic) == TRANSFER_TOPIC
    ensures var log := Log(token, Some([topic, pad + from, pad + to]), amount);
            var after := Transferred(ledger, log, token);
            && Balance(after, "0x" + Lower(from)) == Balance(ledger, "0x" + Lower(from)) - amount
            && Balance(after, "0x" + Lower(to)) == Balance(ledger, "0x" + Lower(to)) + amount
            && forall a :: a != "0x" + Lower(from) && a != "0x" + Lower(to) ==> Balance(after, a) == Balance(ledger, a)
  {
    var log := Log(token, Some([topic, pad + from, pad + to]), amount);
    LastForty(pad, from);
    LastForty(pad, to);
    assert log.topics.value[0] == topic && IsTransfer(log, token);
  }

  lemma LastForty(pad: string, address: string)
    requires |address| == 40
    ensures TopicAddress(pad + address) == "0x" + Lower(address)
  {
    var topic := pad + address;
    if |topic| > 40 {
      assert topic[|topic| - 40..] == address;
    } else {
      assert topic == address;
    }
  }

  /** The change of any account, the zero address included, is the difference of its
      balances in a ledger that replays the token's transfers. */
  method TokenBalanceChange(logs: Option<seq<Log>>, token: Address, account: Address) returns (change: int)
    ensures logs.None? ==> change == 0
    ensures logs.Some? ==> forall ledger: Ledger :: ZERO_ADDRESS !in ledger ==>
              change == Balance(Replayed(ledger, logs.value, token), account) - Balance(ledger, account)
  {
    if logs.None? {
      return 0;
    }
    if account == ZERO_ADDRESS {
      forall ledger: Ledger | ZERO_ADDRESS !in ledger
        ensures Balance(Replayed(ledger, logs.value, token), ZERO_ADDRESS) == Balance(ledger, ZERO_ADDRESS)
      {
        ZeroHoldsNothing(ledger, logs.value, token);
      }
      return 0;
    }
    change := 0;
    for i := 0 to |logs.value|
      invariant forall ledger: Ledger ::
                  change == Balance(Replayed(ledger, logs.value[..i], token), account) - Balance(ledger, account)
    {
      var log := logs.value[i];
      assert logs.value[..i + 1][..i] == logs.value[..i];
      if log.address == "" || log.topics.None? {
        continue;
      }
      if Lower(log.address) != token {
        continue;
      }
      if |log.topics.value| != 3 {
        continue;
      }
      if Lower(log.topics.value[0]) != TRANSFER_TOPIC {
        continue;
      }
      var from := TopicAddress(log.topics.value[1]);
      var to := TopicAddress(log.topics.value[2]);
      if from == account {
        change := change - log.data;
      }
      if to == account {
        change := change + log.data;
      }
    }
    assert logs.value[..|logs.value|] == logs.value;
  }

  lemma {:induction false} ZeroHoldsNothing(ledger: Ledger, logs: seq<Log>, token: Address)
    requires ZERO_ADDRESS !in ledger
    ensures ZERO_ADDRESS !in Replayed(ledger, logs, token)
  {
    if logs != [] {
      ZeroHoldsNothing(ledger, logs[..|logs| - 1], token);
    }
  }

  // ---- Ether ----

  /** One entry of an internal transfer's value list; a token id other than none,
      empty or an underscore marks a token movement. */
  datatype CallValue = CallValue(value: Option<int>, tokenId: Option<string>)

  datatype Internal = Internal(rejected: bool, from: Option<Address>, to: Option<Address>, values: seq<CallValue>)

  datatype TxResponse = TxResponse(from: Option<Address>, to: Option<Address>, value: int, fee: int,
                                   internals: seq<Internal>)

  predicate IsPlain(cv: CallValue) {
    cv.value.Some? && (cv.tokenId.None? || cv.tokenId.value == "_" || cv.tokenId.value == "")
  }

  function PlainTotal(values: seq<CallValue>): int {
    if values == [] then 0
    else
      var last := values[|values| - 1];
      PlainTotal(values[..|values| - 1]) + (if IsPlain(last) then last.value.value else 0)
  }

  /** A movement of value between two endpoints, either of which may be unknown. */
  datatype Move = Move(from: Option<Address>, to: Option<Address>, amount: int)

  /** The movements of a transaction: the outer call, the fee (paid to no account),
      and the internal transfers that were not rejected. */
  function Moves(tx: TxResponse, includeFee: bool): seq<Move> {
    [Move(tx.from, tx.to, tx.value)] +
    (if includeFee && tx.from.Some? then [Move(tx.from, None, tx.fee)] else []) +
    InternalMoves(tx.internals)
  }

  function InternalMoves(itxs: seq<Internal>): seq<Move> {
    if itxs == [] then []
    else
      var last := itxs[|itxs| - 1];
      InternalMoves(itxs[..|itxs| - 1]) +
      (if last.rejected || PlainTotal(last.values) == 0 then []
       else [Move(last.from, last.to, PlainTotal(last.values))])
  }

  /** Net flow of an account over movements. */
  function Flow(moves: seq<Move>, a: Address): int {
    if moves == [] then 0
    else
      var last := moves[|moves| - 1];
      Flow(moves[..|moves| - 1], a) +
      (if last.to == Some(a) then last.amount else 0) - (if last.from == Some(a) then last.amount else 0)
  }

  /** Every account's change is its net flow over the movements. */
  ghost predicate AreFlows(changes: seq<int>, moves: seq<Move>, accounts: seq<Address>) {
    |changes| == |accounts| && forall i :: 0 <= i < |accounts| ==> changes[i] == Flow(moves, accounts[i])
  }

  /** Adds a movement to every account's change. */
  method ApplyMove(changes: seq<int>, ghost done: seq<Move>, accounts: seq<Address>, move: Move) returns (r: seq<int>)
    requires AreFlows(changes, done, accounts)
    ensures AreFlows(r, done + [move], accounts)
  {
    FlowNext(done, move);
    r := changes;
    for i := 0 to |accounts|
      invariant |r| == |accounts|
      invariant forall j :: i <= j < |accounts| ==> r[j] == changes[j]
      invariant forall j :: 0 <= j < i ==> r[j] == Flow(done + [move], accounts[j])
    {
      if move.from == Some(accounts[i]) {
        r := r[i := r[i] - move.amount];
      }
      if move.to == Some(accounts[i]) {
        r := r[i := r[i] + move.amount];
      }
    }
  }

  /** Each account's change is its net flow over the transaction's movements. */
  method EtherBalanceChanges(tx: Option<TxResponse>, accounts: seq<Address>, includeFee: bool)
    returns (changes: seq<int>)
    ensures AreFlows(changes, if tx.Some? then Moves(tx.value, includeFee) else [], accounts)
  {
    changes := seq(|accounts|, _ => 0);
    assert AreFlows(changes, [], accounts);
    if tx.None? {
      return;
    }
    var outer := Move(tx.value.from, tx.value.to, tx.value.value);
    changes := ApplyMove(changes, [], accounts, outer);
    ghost var head := [outer];
    assert [] + [outer] == head;
    if includeFee && tx.value.from.Some? {
      var fee := Move(tx.value.from, None, tx.value.fee);
      changes := ApplyMove(changes, head, accounts, fee);
      head := head + [fee];
    }
    changes := ApplyInternals(changes, head, accounts, tx.value.internals);
    assert head + InternalMoves(tx.value.internals) == Moves(tx.value, includeFee);
  }

  /** The loop over the internal transfers. */
  method ApplyInternals(start: seq<int>, ghost head: seq<Move>, accounts: seq<Address>, internals: seq<Internal>)
    returns (changes: seq<int>)
    requires AreFlows(start, head, accounts)
    ensures AreFlows(changes, head + InternalMoves(internals), accounts)
  {
    changes := start;
    assert head + InternalMoves([]) == head;
    for n := 0 to |internals|
      invariant AreFlows(changes, head + InternalMoves(internals[..n]), accounts)
    {
      var itx := internals[n];
      ghost var done := head + InternalMoves(internals[..n]);
      assert internals[..n + 1][..n] == internals[..n];
      if itx.rejected {
        assert head + InternalMoves(internals[..n + 1]) == done;
        continue;
      }
      var total := SumPlain(itx.values);
      if total == 0 {
        assert head + InternalMoves(internals[..n + 1]) == done;
        continue;
      }
      var move := Move(itx.from, itx.to, total);
      assert done + [move] == head + InternalMoves(internals[..n + 1]);
      changes := ApplyMove(changes, done, accounts, move);
    }
    assert internals[..|internals|] == internals;
  }

  method SumPlain(values: seq<CallValue>) returns (total: int)
    ensures total == PlainTotal(values)
  {
    total := 0;
    for i := 0 to |values|
      invariant total == PlainTotal(values[..i])
    {
      assert values[..i + 1][..i] == values[..i];
      var cv := values[i];
      if cv.value.Some? && (cv.tokenId.None? || cv.tokenId.value == "_" || cv.tokenId.value == "") {
        total := total + cv.value.value;
      }
    }
    assert values[..|values|] == values;
  }

  lemma FlowNext(moves: seq<Move>, move: Move)
    ensures forall a :: Flow(moves + [move], a) ==
                        Flow(moves, a) + (if move.to == Some(a) then move.amount else 0)
                        - (if move.from == Some(a) then move.amount else 0)
  {
    assert (moves + [move])[..|moves|] == moves;
  }

  /** A plain transfer: its sender loses the value, and the fee if it is included, and
      its receiver gains the value. */
  lemma PlainTransfer(a: Address, b: Address, value: int, fee: int)
    requires a != b
    ensures var tx := TxResponse(Some(a), Some(b), value, fee, []);
            && Flow(Moves(tx, false), a) == -value && Flow(Moves(tx, false), b) == value
            && Flow(Moves(tx, true), a) == -value - fee && Flow(Moves(tx, true), b) == value
  {
    var outer, paid := [Move(Some(a), Some(b), value)], Move(Some(a), None, fee);
    assert outer[..0] == [] && outer + [] == outer && outer + [] + [] == outer;
    assert outer + [paid] + [] == outer + [paid] && (outer + [paid])[..1] == outer;
  }

  /** An internal transfer too, unless it is rejected or moves a token. */
  lemma InternalTransfer(a: Address, b: Address, value: int, id: string)
    ensures InternalMoves([Internal(false, Some(a), Some(b), [CallValue(Some(value), None)])]) ==
            if value == 0 then [] else [Move(Some(a), Some(b), value)]
    ensures InternalMoves([Internal(true, Some(a), Some(b), [CallValue(Some(value), None)])]) == []
    ensures InternalMoves([Internal(false, Some(a), Some(b), [CallValue(Some(value), Some(id))])]) ==
            if value == 0 || (id != "" && id != "_") then [] else [Move(Some(a), Some(b), value)]
    ensures InternalMoves([Internal(false, Some(a), Some(b), [CallValue(None, None)])]) == []
  {
    assert forall cv: CallValue :: [cv][..0] == [];
    assert forall itx: Internal :: [itx][..0] == [];
    assert PlainTotal([CallValue(Some(value), None)]) == value;
    assert PlainTotal([CallValue(None, None)]) == 0;
    assert PlainTotal([CallValue(Some(value), Some(id))]) == if id == "" || id == "_" then value else 0;
  }

  // ---- Conservation ----

  function SumFlows(moves: seq<Move>, accounts: seq<Address>): int {
    if accounts == [] then 0
    else SumFlows(moves, accounts[..|accounts| - 1]) + Flow(moves, accounts[|accounts| - 1])
  }

  ghost predicate Distinct(accounts: seq<Address>) {
    forall i, j :: 0 <= i < j < |accounts| ==> accounts[i] != accounts[j]
  }

  predicate Covered(endpoint: Option<Address>, accounts: seq<Address>) {
    endpoint.Some? && endpoint.value in accounts
  }

  /** What one movement adds to the total of duplicate-free accounts. */
  function Net(move: Move, accounts: seq<Address>): int {
    (if Covered(move.to, accounts) then move.amount else 0) - (if Covered(move.from, accounts) then move.amount else 0)
  }

  function NetAll(moves: seq<Move>, accounts: seq<Address>): int {
    if moves == [] then 0 else NetAll(moves[..|moves| - 1], accounts) + Net(moves[|moves| - 1], accounts)
  }

  lemma {:induction false} SumOfOneMove(moves: seq<Move>, accounts: seq<Address>)
    requires moves != [] && Distinct(accounts)
    ensures SumFlows(moves, accounts) ==
            SumFlows(moves[..|moves| - 1], accounts) + Net(moves[|moves| - 1], accounts)
  {
    if accounts != [] {
      var n := |accounts| - 1;
      SumOfOneMove(moves, accounts[..n]);
      assert accounts == accounts[..n] + [accounts[n]];
      assert accounts[n] !in accounts[..n];
    }
  }

  /** The changes of duplicate-free accounts add up to what crosses their border. */
  lemma {:induction false} SumIsNet(moves: seq<Move>, accounts: seq<Address>)
    requires Distinct(accounts)
    ensures SumFlows(moves, accounts) == NetAll(moves, accounts)
  {
    if moves != [] {
      SumOfOneMove(moves, accounts);
      SumIsNet(moves[..|moves| - 1], accounts);
    } else {
      SumOfNone(accounts);
    }
  }

  lemma {:induction false} SumOfNone(accounts: seq<Address>)
    ensures SumFlows([], accounts) == 0
  {
    if accounts != [] {
      SumOfNone(accounts[..|accounts| - 1]);
    }
  }

  lemma {:induction false} CoveredNetsZero(moves: seq<Move>, accounts: seq<Address>)
    requires forall i :: 0 <= i < |moves| ==> Covered(moves[i].from, accounts) && Covered(moves[i].to, accounts)
    ensures NetAll(moves, accounts) == 0
  {
    if moves != [] {
      CoveredNetsZero(moves[..|moves| - 1], accounts);
    }
  }

  lemma {:induction false} NetConcat(a: seq<Move>, b: seq<Move>, accounts: seq<Address>)
    ensures NetAll(a + b, accounts) == NetAll(a, accounts) + NetAll(b, accounts)
  {
    if b == [] {
      assert a + b == a;
    } else {
      assert (a + b)[..|a + b| - 1] == a + b[..|b| - 1];
      NetConcat(a, b[..|b| - 1], accounts);
    }
  }

  /** Over duplicate-free accounts that cover every endpoint, ether is conserved, up to
      the fee if it is included. */
  lemma EtherConserved(tx: TxResponse, accounts: seq<Address>, includeFee: bool)
    requires Distinct(accounts) && Covered(tx.from, accounts) && Covered(tx.to, accounts)
    requires forall i :: 0 <= i < |InternalMoves(tx.internals)| ==>
                           && Covered(InternalMoves(tx.internals)[i].from, accounts)
                           && Covered(InternalMoves(tx.internals)[i].to, accounts)
    ensures SumFlows(Moves(tx, includeFee), accounts) == if includeFee then -tx.fee else 0
  {
    var outer, fee := [Move(tx.from, tx.to, tx.value)], [Move(tx.from, None, tx.fee)];
    var inner := InternalMoves(tx.internals);
    SumIsNet(Moves(tx, includeFee), accounts);
    CoveredNetsZero(outer, accounts);
    CoveredNetsZero(inner, accounts);
    if includeFee {
      NetConcat(outer + fee, inner, accounts);
      NetConcat(outer, fee, accounts);
      assert fee[..0] == [];
    } else {
      assert outer + [] == outer;
      NetConcat(outer, inner, accounts);
    }
  }
}
