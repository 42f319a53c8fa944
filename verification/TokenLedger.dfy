/** The token contract that the deployment script ships as bytecode: a ledger with checked 256-bit arithmetic. */
module TokenLedger {
  import opened Prelude

  /** 2 to the power of 256 and 2 to the power of 160. */
  const WORDS: nat := 0x1_0000_0000_0000_0000_0000_0000_0000_0000_0000_0000_0000_0000_0000_0000_0000_0000
  const ADDRESSES: nat := 0x1_0000_0000_0000_0000_0000_0000_0000_0000_0000_0000

  type Word = x: nat | x < WORDS
  type Address = a: nat | a < ADDRESSES

  const ZERO: Address := 0

  /** The four revert strings, and the arithmetic panic 0x11. */
  datatype Reason = OnlyOwner | InvalidAddress | InsufficientBalance | NotYourAddress | ArithmeticPanic

  datatype Outcome = Returned | Reverted(reason: Reason)

  datatype LogEntry = Transferred(from: Address, to: Address, value: Word) | Minted(to: Address, value: Word)

  /** The storage words the contract writes, and its event log. A missing balance reads as zero. */
  datatype Ledger = Ledger(totalSupply: nat, balances: map<Address, nat>, owner: Address, log: seq<LogEntry>)

  datatype Call =
    | Transfer(caller: Address, to: Address, value: Word)
    | TransferFrom(caller: Address, from: Address, to: Address, value: Word)
    | Mint(caller: Address, to: Address, value: Word, codeSize: nat)   // codeSize: of the account `to`

  function BalanceOf(balances: map<Address, nat>, a: Address): nat {
    if a in balances then balances[a] else 0
  }

  function CheckedAdd(x: nat, y: Word): Option<nat> {
    if x > WORDS - 1 - y then None else Some(x + y)
  }

  function CheckedSub(x: nat, y: nat): Option<nat> {
    if x < y then None else Some(x - y)
  }

  // ---- What the bytecode does, in any storage ----

  function Deployed(caller: Address, initialSupply: Word): Ledger {
    Ledger(initialSupply, map[caller := initialSupply], caller, [])
  }

  /** The internal transfer. After a panic the ledger holds the writes made so far. */
  function TransferBody(s: Ledger, from: Address, to: Address, value: Word): (Ledger, Outcome) {
    if to == ZERO then
      (s, Reverted(InvalidAddress))
    else if BalanceOf(s.balances, from) < value then
      (s, Reverted(InsufficientBalance))
    else
      var debited := s.balances[from := BalanceOf(s.balances, from) - value];
      match CheckedAdd(BalanceOf(debited, to), value)
      case None => (s.(balances := debited), Reverted(ArithmeticPanic))
      case Some(credited) =>
        (s.(balances := debited[to := credited], log := s.log + [Transferred(from, to, value)]), Returned)
  }

  function MintBody(s: Ledger, caller: Address, to: Address, value: Word, codeSize: nat): (Ledger, Outcome) {
    if caller != s.owner then
      (s, Reverted(OnlyOwner))
    else if to == ZERO || codeSize != 0 then
      (s, Reverted(InvalidAddress))
    else
      match CheckedAdd(s.totalSupply, value)
      case None => (s, Reverted(ArithmeticPanic))
      case Some(supply) =>
        match CheckedAdd(BalanceOf(s.balances, to), value)
        case None => (s.(totalSupply := supply), Reverted(ArithmeticPanic))
        case Some(credited) =>
          (s.(totalSupply := supply, balances := s.balances[to := credited], log := s.log + [Minted(to, value)]),
           Returned)
  }

  /** A reverted call leaves no trace. */
  function Commit(s: Ledger, r: (Ledger, Outcome)): (Ledger, Outcome) {
    if r.1.Reverted? then (s, r.1) else r
  }

  function Exec(s: Ledger, c: Call): (Ledger, Outcome) {
    match c
    case Transfer(caller, to, value) =>
      if BalanceOf(s.balances, caller) < value then
        (s, Reverted(InsufficientBalance))
      else
        Commit(s, TransferBody(s, caller, to, value))
    case TransferFrom(caller, from, to, value) =>
      if caller != from then
        (s, Reverted(NotYourAddress))
      else if BalanceOf(s.balances, from) < value then
        (s, Reverted(InsufficientBalance))
      else
        Commit(s, TransferBody(s, from, to, value))
    case Mint(caller, to, value, codeSize) =>
      Commit(s, MintBody(s, caller, to, value, codeSize))
  }

  function Run(s: Ledger, calls: seq<Call>): Ledger
    decreases |calls|
  {
    if calls == [] then s else Run(Exec(s, calls[0]).0, calls[1..])
  }

  // ---- The contract object ----

  class Token {
    var totalSupply: nat
    var balances: map<Address, nat>
    var owner: Address
    var log: seq<LogEntry>

    ghost function State(): Ledger
      reads this
    {
      Ledger(totalSupply, balances, owner, log)
    }

    constructor (caller: Address, initialSupply: Word)
      ensures State() == Deployed(caller, initialSupply)
      ensures Conserved(State())
    {
      totalSupply := initialSupply;
      balances := map[caller := initialSupply];
      owner := caller;
      log := [];
      new;
      DeployConserves(caller, initialSupply);
    }

    method TransferInternal(from: Address, to: Address, value: Word) returns (outcome: Outcome)
      modifies `balances, `log
      ensures (State(), outcome) == TransferBody(old(State()), from, to, value)
    {
      if to == ZERO {
        return Reverted(InvalidAddress);
      }
      if BalanceOf(balances, from) < value {
        return Reverted(InsufficientBalance);
      }
      var debited := CheckedSub(BalanceOf(balances, from), value);
      if debited.None? {
        return Reverted(ArithmeticPanic);
      }
      balances := balances[from := debited.value];
      var credited := CheckedAdd(BalanceOf(balances, to), value);
      if credited.None? {
        return Reverted(ArithmeticPanic);
      }
      balances := balances[to := credited.value];
      log := log + [Transferred(from, to, value)];
      return Returned;
    }

    method MintInternal(caller: Address, to: Address, value: Word, codeSize: nat) returns (outcome: Outcome)
      modifies `totalSupply, `balances, `log
      ensures (State(), outcome) == MintBody(old(State()), caller, to, value, codeSize)
    {
      if caller != owner {
        return Reverted(OnlyOwner);
      }
      if to == ZERO || codeSize != 0 {
        return Reverted(InvalidAddress);
      }
      var supply := CheckedAdd(totalSupply, value);
      if supply.None? {
        return Reverted(ArithmeticPanic);
      }
      totalSupply := supply.value;
      var credited := CheckedAdd(BalanceOf(balances, to), value);
      if credited.None? {
        return Reverted(ArithmeticPanic);
      }
      balances := balances[to := credited.value];
      log := log + [Minted(to, value)];
      return Returned;
    }

    /** Puts back the storage as it was before the call. */
    method RollBack(supply: nat, saved: map<Address, nat>, entries: seq<LogEntry>)
      modifies `totalSupply, `balances, `log
      ensures State() == Ledger(supply, saved, old(owner), entries)
    {
      totalSupply, balances, log := supply, saved, entries;
    }

    method Transfer(caller: Address, to: Address, value: Word) returns (outcome: Outcome)
      modifies `totalSupply, `balances, `log
      ensures (State(), outcome) == Exec(old(State()), Call.Transfer(caller, to, value))
      ensures old(Conserved(State())) ==> Conserved(State())
    {
      ExecConservesIf(State(), Call.Transfer(caller, to, value));
      if BalanceOf(balances, caller) < value {
        return Reverted(InsufficientBalance);
      }
      var supply, saved, entries := totalSupply, balances, log;
      outcome := TransferInternal(caller, to, value);
      if outcome.Reverted? {
        RollBack(supply, saved, entries);
      }
    }

    method TransferFrom(caller: Address, from: Address, to: Address, value: Word) returns (outcome: Outcome)
      modifies `totalSupply, `balances, `log
      ensures (State(), outcome) == Exec(old(State()), Call.TransferFrom(caller, from, to, value))
      ensures old(Conserved(State())) ==> Conserved(State())
    {
      ExecConservesIf(State(), Call.TransferFrom(caller, from, to, value));
      if caller != from {
        return Reverted(NotYourAddress);
      }
      if BalanceOf(balances, from) < value {
        return Reverted(InsufficientBalance);
      }
      var supply, saved, entries := totalSupply, balances, log;
      outcome := TransferInternal(from, to, value);
      if outcome.Reverted? {
        RollBack(supply, saved, entries);
      }
    }

    method Mint(caller: Address, to: Address, value: Word, codeSize: nat) returns (outcome: Outcome)
      modifies `totalSupply, `balances, `log
      ensures (State(), outcome) == Exec(old(State()), Call.Mint(caller, to, value, codeSize))
      ensures old(Conserved(State())) ==> Conserved(State())
    {
      ExecConservesIf(State(), Call.Mint(caller, to, value, codeSize));
      var supply, saved, entries := totalSupply, balances, log;
      outcome := MintInternal(caller, to, value, codeSize);
      if outcome.Reverted? {
        RollBack(supply, saved, entries);
      }
    }
  }

  // ---- Conservation ----

  ghost function Sum(m: map<Address, nat>): nat {
    if m == map[] then 0 else var k :| k in m; m[k] + Sum(m - {k})
  }

  ghost predicate Conserved(s: Ledger) {
    Sum(s.balances) == s.totalSupply < WORDS
  }

  lemma {:induction false} SumTakeOut(m: map<Address, nat>, a: Address)
    requires a in m
    ensures Sum(m) == m[a] + Sum(m - {a})
  {
    var k :| k in m && Sum(m) == m[k] + Sum(m - {k});
    if k != a {
      SumTakeOut(m - {k}, a);
      SumTakeOut(m - {a}, k);
      assert m - {k} - {a} == m - {a} - {k};
    }
  }

  lemma SumUpdate(m: map<Address, nat>, a: Address, v: nat)
    ensures Sum(m[a := v]) + BalanceOf(m, a) == Sum(m) + v
  {
    var rest := m - {a};
    SumTakeOut(m[a := v], a);
    assert m[a := v] - {a} == rest;
    if a in m {
      SumTakeOut(m, a);
    } else {
      assert rest == m;
    }
  }

  /** Two different accounts together hold at most everything. */
  lemma BalancesAtMostSum(m: map<Address, nat>, a: Address, b: Address)
    ensures BalanceOf(m, a) <= Sum(m)
    ensures a != b ==> BalanceOf(m, a) + BalanceOf(m, b) <= Sum(m)
  {
    SumUpdate(m, a, 0);
    SumUpdate(m[a := 0], b, 0);
  }

  lemma DeployConserves(caller: Address, initialSupply: Word)
    ensures Conserved(Deployed(caller, initialSupply))
  {
    SumUpdate(map[], caller, initialSupply);
    assert Deployed(caller, initialSupply).balances == map[][caller := initialSupply];
  }

  lemma ExecConserves(s: Ledger, c: Call)
    requires Conserved(s)
    ensures Conserved(Exec(s, c).0)
  {
    match c
    case Transfer(caller, to, value) => TransferKeepsSum(s, caller, to, value);
    case TransferFrom(caller, from, to, value) => TransferKeepsSum(s, from, to, value);
    case Mint(caller, to, value, codeSize) =>
      SumUpdate(s.balances, to, BalanceOf(s.balances, to) + value);
  }

  lemma ExecConservesIf(s: Ledger, c: Call)
    ensures Conserved(s) ==> Conserved(Exec(s, c).0)
  {
    if Conserved(s) {
      ExecConserves(s, c);
    }
  }

  lemma TransferKeepsSum(s: Ledger, from: Address, to: Address, value: Word)
    ensures TransferBody(s, from, to, value).1.Returned? ==>
              Sum(TransferBody(s, from, to, value).0.balances) == Sum(s.balances)
  {
    if TransferBody(s, from, to, value).1.Returned? {
      var debited := s.balances[from := BalanceOf(s.balances, from) - value];
      SumUpdate(s.balances, from, BalanceOf(s.balances, from) - value);
      SumUpdate(debited, to, BalanceOf(debited, to) + value);
    }
  }

  lemma {:induction false} RunConservesFrom(s: Ledger, calls: seq<Call>)
    requires Conserved(s)
    ensures Conserved(Run(s, calls))
    decreases |calls|
  {
    if calls != [] {
      ExecConserves(s, calls[0]);
      RunConservesFrom(Exec(s, calls[0]).0, calls[1..]);
    }
  }

  /** Main result: after any calls by anyone the balances add up to the total supply, which fits in a word. */
  lemma RunConserves(deployer: Address, initialSupply: Word, calls: seq<Call>)
    ensures var s := Run(Deployed(deployer, initialSupply), calls);
            && Sum(s.balances) == s.totalSupply < WORDS
            && forall a :: BalanceOf(s.balances, a) < WORDS
  {
    DeployConserves(deployer, initialSupply);
    RunConservesFrom(Deployed(deployer, initialSupply), calls);
    var s := Run(Deployed(deployer, initialSupply), calls);
    forall a ensures BalanceOf(s.balances, a) < WORDS {
      BalancesAtMostSum(s.balances, a, a);
    }
  }

  // ---- When calls revert, and what they do otherwise ----

  /** In storage that need not be conserved, crediting another account can overflow. */
  lemma TransferPanicExact(s: Ledger, from: Address, to: Address, value: Word)
    requires BalanceOf(s.balances, from) < WORDS
    ensures TransferBody(s, from, to, value).1 == Reverted(ArithmeticPanic) <==>
            && to != ZERO && from != to
            && BalanceOf(s.balances, from) >= value
            && BalanceOf(s.balances, to) + value >= WORDS
    ensures var (t, outcome) := TransferBody(s, from, to, value);
            outcome == Reverted(ArithmeticPanic) ==>
              t == s.(balances := s.balances[from := BalanceOf(s.balances, from) - value])
  {
  }

  /** Minting can overflow the supply, before anything is written, or else the credited balance, after the supply. */
  lemma MintPanicExact(s: Ledger, caller: Address, to: Address, value: Word, codeSize: nat)
    ensures var (t, outcome) := MintBody(s, caller, to, value, codeSize);
            && (outcome == Reverted(ArithmeticPanic) <==>
                  && caller == s.owner && to != ZERO && codeSize == 0
                  && (s.totalSupply + value >= WORDS || BalanceOf(s.balances, to) + value >= WORDS))
            && (outcome == Reverted(ArithmeticPanic) ==>
                  t == if s.totalSupply + value >= WORDS then s else s.(totalSupply := s.totalSupply + value))
  {
  }

  /** The balance of `a` after `value` has moved from `from` to `to`. */
  function Moved(s: Ledger, from: Address, to: Address, value: Word, a: Address): int {
    BalanceOf(s.balances, a) - (if a == from then value else 0) + (if a == to then value else 0)
  }

  /** Main result: in conserved storage the inner checks never fire, and a transfer is refused exactly for a short
      balance or, with the balance in order, the zero address. It moves the value and touches nothing else, the
      self-transfer included. */
  lemma TransferExact(s: Ledger, caller: Address, to: Address, value: Word)
    requires Conserved(s)
    ensures var (t, outcome) := Exec(s, Call.Transfer(caller, to, value));
            && (outcome == Returned <==> BalanceOf(s.balances, caller) >= value && to != ZERO)
            && (outcome == Reverted(InsufficientBalance) <==> BalanceOf(s.balances, caller) < value)
            && (outcome == Reverted(InvalidAddress) <==> BalanceOf(s.balances, caller) >= value && to == ZERO)
            && (outcome != Returned ==> t == s)
            && (outcome == Returned ==>
                  && t.log == s.log + [Transferred(caller, to, value)]
                  && forall a :: BalanceOf(t.balances, a) == Moved(s, caller, to, value, a))
            && t.totalSupply == s.totalSupply && t.owner == s.owner
  {
    BalancesAtMostSum(s.balances, caller, to);
    BalancesAtMostSum(s.balances, to, to);
    TransferPanicExact(s, caller, to, value);
  }

  /** `transferFrom` serves the holder only, and then it is `transfer`. */
  lemma TransferFromIsTransfer(s: Ledger, caller: Address, from: Address, to: Address, value: Word)
    ensures Exec(s, Call.TransferFrom(caller, from, to, value))
         == if caller == from then Exec(s, Call.Transfer(caller, to, value)) else (s, Reverted(NotYourAddress))
  {
  }

  /** Main result: minting is refused exactly for another caller than the owner, for the zero address or an account
      with code, or when the supply would no longer fit in a word. The credited balance never overflows. */
  lemma MintExact(s: Ledger, caller: Address, to: Address, value: Word, codeSize: nat)
    requires Conserved(s)
    ensures var (t, outcome) := Exec(s, Call.Mint(caller, to, value, codeSize));
            && (outcome == Returned <==>
                  caller == s.owner && to != ZERO && codeSize == 0 && s.totalSupply + value < WORDS)
            && (outcome == Reverted(OnlyOwner) <==> caller != s.owner)
            && (outcome == Reverted(InvalidAddress) <==> caller == s.owner && (to == ZERO || codeSize != 0))
            && (outcome == Reverted(ArithmeticPanic) <==>
                  caller == s.owner && to != ZERO && codeSize == 0 && s.totalSupply + value >= WORDS)
            && (outcome != Returned ==> t == s)
            && (outcome == Returned ==>
                  && t.totalSupply == s.totalSupply + value
                  && t.log == s.log + [Minted(to, value)]
                  && forall a :: BalanceOf(t.balances, a) == BalanceOf(s.balances, a) + if a == to then value else 0)
            && t.owner == s.owner
  {
    BalancesAtMostSum(s.balances, to, to);
  }

  /** Main result: in every reachable state each call ends as its arguments, the balance of its caller, the deployer and
      what has been minted so far decide; only minting can panic. */
  lemma ReachableOutcomes(deployer: Address, initialSupply: Word, calls: seq<Call>, c: Call)
    ensures var s := Run(Deployed(deployer, initialSupply), calls);
            var outcome := Exec(s, c).1;
            match c
            case Transfer(caller, to, value) =>
              && (outcome == Returned <==> BalanceOf(s.balances, caller) >= value && to != ZERO)
              && outcome != Reverted(ArithmeticPanic)
            case TransferFrom(caller, from, to, value) =>
              && (outcome == Returned <==> caller == from && BalanceOf(s.balances, from) >= value && to != ZERO)
              && outcome != Reverted(ArithmeticPanic)
            case Mint(caller, to, value, codeSize) =>
              var fits := initialSupply + Issued(s.log) + value < WORDS;
              && (outcome == Returned <==> caller == deployer && to != ZERO && codeSize == 0 && fits)
              && (outcome == Reverted(ArithmeticPanic) <==> caller == deployer && to != ZERO && codeSize == 0 && !fits)
  {
    var s := Run(Deployed(deployer, initialSupply), calls);
    DeployConserves(deployer, initialSupply);
    RunConservesFrom(Deployed(deployer, initialSupply), calls);
    LogExplainsLedger(deployer, initialSupply, calls, deployer);
    match c
    case Transfer(caller, to, value) => TransferExact(s, caller, to, value);
    case TransferFrom(caller, from, to, value) =>
      TransferFromIsTransfer(s, caller, from, to, value);
      TransferExact(s, caller, to, value);
    case Mint(caller, to, value, codeSize) => MintExact(s, caller, to, value, codeSize);
  }

  // ---- Whole runs ----

  /** Main result: an account that makes no call itself never loses anything, whoever calls what. */
  lemma {:induction false} OnlyCallersPay(s: Ledger, calls: seq<Call>, a: Address)
    requires forall i :: 0 <= i < |calls| ==> calls[i].caller != a
    ensures BalanceOf(Run(s, calls).balances, a) >= BalanceOf(s.balances, a)
    decreases |calls|
  {
    if calls != [] {
      var t := Exec(s, calls[0]).0;
      assert calls[0].caller != a;
      assert BalanceOf(t.balances, a) >= BalanceOf(s.balances, a);
      OnlyCallersPay(t, calls[1..], a);
    }
  }

  /** What one log entry says that `a` received, that `a` gave, and that was issued. */
  function In(e: LogEntry, a: Address): nat {
    if e.to == a then e.value else 0
  }

  function Out(e: LogEntry, a: Address): nat {
    if e.Transferred? && e.from == a then e.value else 0
  }

  function New(e: LogEntry): nat {
    if e.Minted? then e.value else 0
  }

  /** The same over a whole log. */
  function Received(log: seq<LogEntry>, a: Address): nat {
    if log == [] then 0 else Received(log[..|log| - 1], a) + In(log[|log| - 1], a)
  }

  function Spent(log: seq<LogEntry>, a: Address): nat {
    if log == [] then 0 else Spent(log[..|log| - 1], a) + Out(log[|log| - 1], a)
  }

  function Issued(log: seq<LogEntry>): nat {
    if log == [] then 0 else Issued(log[..|log| - 1]) + New(log[|log| - 1])
  }

  /** From `s` to `t` the ledger has changed by what the log says, as far as `a` is concerned. */
  ghost predicate LogBalanced(s: Ledger, t: Ledger, a: Address) {
    && BalanceOf(t.balances, a) + Spent(t.log, a) + Received(s.log, a)
       == BalanceOf(s.balances, a) + Spent(s.log, a) + Received(t.log, a)
    && t.totalSupply + Issued(s.log) == s.totalSupply + Issued(t.log)
    && t.owner == s.owner
  }

  lemma {:induction false} RunKeepsLogBalance(s: Ledger, calls: seq<Call>, a: Address)
    ensures LogBalanced(s, Run(s, calls), a)
    decreases |calls|
  {
    if calls != [] {
      ExecLogBalance(s, calls[0], a);
      RunKeepsLogBalance(Exec(s, calls[0]).0, calls[1..], a);
    }
  }

  /** What one more entry adds to the three sums. */
  lemma LogSnoc(log: seq<LogEntry>, e: LogEntry, a: Address)
    ensures Received(log + [e], a) == Received(log, a) + In(e, a)
    ensures Spent(log + [e], a) == Spent(log, a) + Out(e, a)
    ensures Issued(log + [e]) == Issued(log) + New(e)
  {
    assert (log + [e])[..|log + [e]| - 1] == log;
  }

  /** The ledger has changed by one entry. */
  ghost predicate ChangedBy(s: Ledger, t: Ledger, e: LogEntry, a: Address) {
    && t.log == s.log + [e]
    && BalanceOf(t.balances, a) + Out(e, a) == BalanceOf(s.balances, a) + In(e, a)
    && t.totalSupply == s.totalSupply + New(e)
    && t.owner == s.owner
  }

  lemma OneEntryBalances(s: Ledger, t: Ledger, e: LogEntry, a: Address)
    requires ChangedBy(s, t, e, a)
    ensures LogBalanced(s, t, a)
  {
    LogSnoc(s.log, e, a);
  }

  lemma TransferLogBalance(s: Ledger, from: Address, to: Address, value: Word, a: Address)
    ensures LogBalanced(s, Commit(s, TransferBody(s, from, to, value)).0, a)
  {
    var (t, outcome) := TransferBody(s, from, to, value);
    if outcome == Returned {
      assert ChangedBy(s, t, Transferred(from, to, value), a);
      OneEntryBalances(s, t, Transferred(from, to, value), a);
    }
  }

  lemma MintLogBalance(s: Ledger, caller: Address, to: Address, value: Word, codeSize: nat, a: Address)
    ensures LogBalanced(s, Commit(s, MintBody(s, caller, to, value, codeSize)).0, a)
  {
    var (t, outcome) := MintBody(s, caller, to, value, codeSize);
    if outcome == Returned {
      assert ChangedBy(s, t, Minted(to, value), a);
      OneEntryBalances(s, t, Minted(to, value), a);
    }
  }

  lemma ExecLogBalance(s: Ledger, c: Call, a: Address)
    ensures LogBalanced(s, Exec(s, c).0, a)
  {
    match c
    case Transfer(caller, to, value) => TransferLogBalance(s, caller, to, value, a);
    case TransferFrom(caller, from, to, value) => TransferLogBalance(s, from, to, value, a);
    case Mint(caller, to, value, codeSize) => MintLogBalance(s, caller, to, value, codeSize, a);
  }

  /** What account `a` gave away by its own calls that returned. */
  function OwnPayments(s: Ledger, calls: seq<Call>, a: Address): nat
    decreases |calls|
  {
    if calls == [] then
      0
    else
      var c, (t, outcome) := calls[0], Exec(s, calls[0]);
      OwnPayments(t, calls[1..], a) + if c.caller == a && !c.Mint? && outcome == Returned then c.value else 0
  }

  lemma {:induction false} SpentIsOwnPayments(s: Ledger, calls: seq<Call>, a: Address)
    ensures Spent(Run(s, calls).log, a) == Spent(s.log, a) + OwnPayments(s, calls, a)
    decreases |calls|
  {
    if calls != [] {
      var t := Exec(s, calls[0]).0;
      if t.log != s.log {
        assert t.log[..|t.log| - 1] == s.log;
      }
      SpentIsOwnPayments(t, calls[1..], a);
    }
  }

  /** Main result: over any run what leaves an account is exactly what its own returned calls gave away; its balance is
      what it started with and received, less those payments. So `transferFrom` never spends for somebody else. */
  lemma OutflowIsOwnPayments(deployer: Address, initialSupply: Word, calls: seq<Call>, a: Address)
    ensures var s0 := Deployed(deployer, initialSupply);
            var s := Run(s0, calls);
            && Spent(s.log, a) == OwnPayments(s0, calls, a)
            && BalanceOf(s.balances, a) + OwnPayments(s0, calls, a)
               == Received(s.log, a) + if a == deployer then initialSupply else 0
  {
    SpentIsOwnPayments(Deployed(deployer, initialSupply), calls, a);
    LogExplainsLedger(deployer, initialSupply, calls, a);
  }

  /** The call asks for what the entry records, by the account that the entry debits or, for new tokens, the owner. */
  predicate Authorises(c: Call, e: LogEntry, owner: Address) {
    match e
    case Transferred(from, to, value) => !c.Mint? && c.caller == from && c.to == to && c.value == value
    case Minted(to, value) => c.Mint? && c.caller == owner && c.to == to && c.value == value
  }

  /** Main result: every entry that a run appends to the log was asked for by a call in the run: a transfer by the
      account it debits, an issue by the owner. */
  lemma {:induction false} EveryEntryIsAuthorised(s: Ledger, calls: seq<Call>, k: nat)
    requires |s.log| <= k < |Run(s, calls).log|
    ensures exists i :: 0 <= i < |calls| && Authorises(calls[i], Run(s, calls).log[k], s.owner)
    decreases |calls|
  {
    if calls != [] {
      var t := Exec(s, calls[0]).0;
      LogOnlyGrows(t, calls[1..]);
      if k < |t.log| {
        assert Authorises(calls[0], t.log[k], s.owner);
        assert Run(s, calls).log[k] == t.log[k];
      } else {
        EveryEntryIsAuthorised(t, calls[1..], k);
        var i :| 0 <= i < |calls| - 1 && Authorises(calls[1..][i], Run(s, calls).log[k], t.owner);
        assert calls[1..][i] == calls[i + 1];
      }
    }
  }

  lemma {:induction false} LogOnlyGrows(s: Ledger, calls: seq<Call>)
    ensures s.log <= Run(s, calls).log
    decreases |calls|
  {
    if calls != [] {
      LogOnlyGrows(Exec(s, calls[0]).0, calls[1..]);
    }
  }

  /** Main result: the event log accounts for every balance and for the supply since deployment. */
  lemma LogExplainsLedger(deployer: Address, initialSupply: Word, calls: seq<Call>, a: Address)
    ensures var s := Run(Deployed(deployer, initialSupply), calls);
            && BalanceOf(s.balances, a) + Spent(s.log, a)
               == Received(s.log, a) + (if a == deployer then initialSupply else 0)
            && s.totalSupply == initialSupply + Issued(s.log)
            && s.owner == deployer
  {
    RunKeepsLogBalance(Deployed(deployer, initialSupply), calls, a);
  }
}
