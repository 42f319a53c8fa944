/** The genesis builder of the chain: endowed accounts, stakers with random nominations, and the derived lists. */
module Genesis {
  import opened Prelude

  type AccountId = nat
  type Balance = nat

  const MILLICENTS: Balance := 10_000_000_000_000
  const CENTS: Balance := 1_000 * MILLICENTS
  const DOLLARS: Balance := 100 * CENTS
  const ENDOWMENT: Balance := 100_000_000 * DOLLARS
  const STASH: Balance := ENDOWMENT / 1000
  const MAX_NOMINATIONS: nat := 16
  const MIN_VALIDATOR_BOND: Balance := 75_000 * DOLLARS
  const MIN_NOMINATOR_BOND: Balance := 10 * DOLLARS

  const EVM_ACCOUNTS: map<nat, EvmAccount> := map[
    0x8097_c3C3_5465_2CB1_EEed_3E5B_65Fb_a257_6470_678A :=
      EvmAccount(0xffff_ffff_ffff_ffff_ffff_ffff_ffff_ffff, 0, []),
    0x6be0_2d1d_3665_660d_22ff_9624_b7be_0551_ee1a_c91b :=
      EvmAccount(0xffff_ffff_ffff_ffff_ffff_ffff_ffff_ffff, 0, []),
    0x1000_0000_0000_0000_0000_0000_0000_0000_0000_0001 :=
      EvmAccount(1_000_000_000_000_000_000_000_000, 1, [0x00])
  ]

  /** One initial authority: stash, controller and the three session keys. */
  datatype Authority = Authority(stash: AccountId, controller: AccountId, babe: nat, grandpa: nat, imOnline: nat)

  datatype StakerStatus = Validator | Nominator(nominations: seq<AccountId>)

  datatype Staker = Staker(stash: AccountId, controller: AccountId, bond: Balance, status: StakerStatus)

  datatype SessionKeys = SessionKeys(account: AccountId, validator: AccountId, babe: nat, grandpa: nat, imOnline: nat)

  /** An account of the EVM by balance, nonce and code. */
  datatype EvmAccount = EvmAccount(balance: nat, nonce: nat, code: seq<nat>)

  datatype Config = Config(
    sudoKey: AccountId,
    balances: seq<(AccountId, Balance)>,
    epochConfig: EpochConfig,
    sessionKeys: seq<SessionKeys>,
    validatorCount: nat,
    minimumValidatorCount: nat,
    invulnerables: seq<AccountId>,
    slashRewardPercent: nat,
    stakers: seq<Staker>,
    minValidatorBond: Balance,
    minNominatorBond: Balance,
    electionMembers: seq<(AccountId, Balance)>,
    technicalCommittee: seq<AccountId>,
    chainId: nat,
    evmAccounts: map<nat, EvmAccount>,
    minCreateBond: Balance,
    minJoinBond: Balance)

  /** The configuration of block production from the first epoch on: the chance of a primary slot as a fraction. */
  datatype EpochConfig = EpochConfig(numerator: nat, denominator: nat, slots: AllowedSlots)

  datatype AllowedSlots = PrimarySlots | PrimaryAndSecondaryPlainSlots | PrimaryAndSecondaryVrfSlots

  const EPOCH_CONFIG := EpochConfig(1, 4, PrimaryAndSecondaryPlainSlots)

  datatype GenesisError = RemainderByZero

  /** The random choices for one nominator: a raw machine word, and the sampled positions in sampling order. */
  datatype Draw = Draw(raw: nat, picks: seq<nat>)

  function Stashes(authorities: seq<Authority>): seq<AccountId> {
    seq(|authorities|, i requires 0 <= i < |authorities| => authorities[i].stash)
  }

  function Limit(authorities: seq<Authority>): nat {
    Min(MAX_NOMINATIONS, |authorities|)
  }

  /** Sampling without replacement: `raw % limit` different positions. */
  predicate GoodDraw(draw: Draw, authorities: seq<Authority>) {
    && Limit(authorities) > 0
    && |draw.picks| == draw.raw % Limit(authorities)
    && Distinct(draw.picks)
    && forall i :: 0 <= i < |draw.picks| ==> draw.picks[i] < |authorities|
  }

  function Nominations(draw: Draw, authorities: seq<Authority>): seq<AccountId>
    requires GoodDraw(draw, authorities)
  {
    seq(|draw.picks|, i requires 0 <= i < |draw.picks| => authorities[draw.picks[i]].stash)
  }

  function ValidatorStakers(authorities: seq<Authority>): seq<Staker> {
    seq(|authorities|, i requires 0 <= i < |authorities| =>
      Staker(authorities[i].stash, authorities[i].controller, STASH, Validator))
  }

  function NominatorStakers(authorities: seq<Authority>, nominators: seq<AccountId>, draws: seq<Draw>): seq<Staker>
    requires |draws| == |nominators| && forall i :: 0 <= i < |draws| ==> GoodDraw(draws[i], authorities)
  {
    seq(|nominators|, i requires 0 <= i < |nominators| =>
      Staker(nominators[i], nominators[i], STASH, Nominator(Nominations(draws[i], authorities))))
  }

  function Keys(authorities: seq<Authority>): seq<SessionKeys> {
    seq(|authorities|, i requires 0 <= i < |authorities| =>
      var a := authorities[i]; SessionKeys(a.controller, a.stash, a.babe, a.grandpa, a.imOnline))
  }

  function WithAmount(accounts: seq<AccountId>, amount: Balance): seq<(AccountId, Balance)> {
    seq(|accounts|, i requires 0 <= i < |accounts| => (accounts[i], amount))
  }

  /** The elements of `candidates` that are new, in the order of their first occurrence. */
  function Additions(known: seq<AccountId>, candidates: seq<AccountId>): seq<AccountId> {
    if candidates == [] then
      []
    else
      var n := |candidates| - 1;
      var earlier := Additions(known, candidates[..n]);
      earlier + if candidates[n] in known + earlier then [] else [candidates[n]]
  }

  /** The in-place loop over authority stashes and nominators. */
  method Endow(initial: seq<AccountId>, authorities: seq<Authority>, nominators: seq<AccountId>)
    returns (endowedAccounts: seq<AccountId>)
    ensures endowedAccounts == initial + Additions(initial, Stashes(authorities) + nominators)
  {
    var candidates := Stashes(authorities) + nominators;
    endowedAccounts := initial;
    for i := 0 to |candidates|
      invariant endowedAccounts == initial + Additions(initial, candidates[..i])
    {
      assert candidates[..i + 1][..i] == candidates[..i];
      if candidates[i] !in endowedAccounts {
        endowedAccounts := endowedAccounts + [candidates[i]];
      }
    }
    assert candidates[..|candidates|] == candidates;
  }

  /** The whole builder. With nominators but without authorities the remainder by the limit panics. */
  method TestnetGenesis(sudoKey: AccountId, initialAccounts: seq<AccountId>, authorities: seq<Authority>,
                        nominators: seq<AccountId>, chainId: nat, draws: seq<Draw>)
    returns (r: Result<Config, GenesisError>)
    requires |draws| == |nominators|
    requires authorities != [] ==> forall i :: 0 <= i < |draws| ==> GoodDraw(draws[i], authorities)
    ensures r == Err(RemainderByZero) <==> authorities == [] && nominators != []
    ensures r.Ok? ==> BuiltFrom(r.value, sudoKey, initialAccounts, authorities, nominators, chainId, draws)
  {
    var endowed := Endow(initialAccounts, authorities, nominators);
    var numEndowedAccounts := |endowed|;
    if authorities == [] && nominators != [] {
      return Err(RemainderByZero);
    }
    var stakers := ValidatorStakers(authorities) + NominatorStakers(authorities, nominators, draws);
    var members := endowed[..(numEndowedAccounts + 1) / 2];
    r := Ok(Config(sudoKey, WithAmount(endowed, ENDOWMENT), EPOCH_CONFIG, Keys(authorities), |authorities|,
                   |authorities|, Stashes(authorities), 10, stakers, MIN_VALIDATOR_BOND, MIN_NOMINATOR_BOND,
                   WithAmount(members, STASH), members, chainId, EVM_ACCOUNTS, 10 * DOLLARS, DOLLARS));
  }

  /** What the builder promises about each list, in terms of the endowed accounts. */
  predicate BuiltFrom(c: Config, sudoKey: AccountId, initialAccounts: seq<AccountId>, authorities: seq<Authority>,
                      nominators: seq<AccountId>, chainId: nat, draws: seq<Draw>)
  {
    var endowed := initialAccounts + Additions(initialAccounts, Stashes(authorities) + nominators);
    var members := endowed[..(|endowed| + 1) / 2];
    && |draws| == |nominators|
    && (forall i :: 0 <= i < |draws| ==> GoodDraw(draws[i], authorities))
    && c.sudoKey == sudoKey && c.chainId == chainId
    && c.balances == WithAmount(endowed, ENDOWMENT)
    && c.epochConfig == EPOCH_CONFIG
    && c.sessionKeys == Keys(authorities)
    && c.validatorCount == c.minimumValidatorCount == |authorities|
    && c.invulnerables == Stashes(authorities)
    && c.stakers == ValidatorStakers(authorities) + NominatorStakers(authorities, nominators, draws)
    && c.electionMembers == WithAmount(members, STASH)
    && c.technicalCommittee == members
    && c.slashRewardPercent == 10
    && c.minValidatorBond == MIN_VALIDATOR_BOND && c.minNominatorBond == MIN_NOMINATOR_BOND
    && c.evmAccounts == EVM_ACCOUNTS
    && c.minCreateBond == 10 * DOLLARS && c.minJoinBond == DOLLARS
  }

  // ---- Endowment ----

  lemma {:induction false} AdditionsExact(known: seq<AccountId>, candidates: seq<AccountId>)
    ensures Distinct(Additions(known, candidates))
    ensures forall a :: a in Additions(known, candidates) <==> a in candidates && a !in known
  {
    if candidates != [] {
      var n := |candidates| - 1;
      AdditionsExact(known, candidates[..n]);
      assert candidates == candidates[..n] + [candidates[n]];
    }
  }

  /** Of two accounts that are added, the one that occurs first among the candidates comes first. */
  lemma {:induction false} AdditionsInOrder(known: seq<AccountId>, candidates: seq<AccountId>, i: nat, j: nat)
    requires i < j < |Additions(known, candidates)|
    ensures var added := Additions(known, candidates);
            exists p: nat :: p < |candidates| && candidates[p] == added[i] && added[j] !in candidates[..p + 1]
  {
    var n := |candidates| - 1;
    var init := candidates[..n];
    var earlier := Additions(known, init);
    AdditionsExact(known, init);
    AdditionsExact(known, candidates);
    assert earlier <= Additions(known, candidates);
    if j < |earlier| {
      AdditionsInOrder(known, init, i, j);
      var p: nat :| p < |init| && init[p] == earlier[i] && earlier[j] !in init[..p + 1];
      assert candidates[..p + 1] == init[..p + 1];
      assert candidates[p] == earlier[i];
    } else {
      assert candidates[n] !in init;
      assert earlier[i] in earlier;
      var p: nat :| p < n && init[p] == earlier[i];
      assert candidates[p] == earlier[i];
      assert forall q :: 0 <= q < p + 1 ==> candidates[..p + 1][q] == init[q];
    }
  }

  /** Main result: exactly the initial accounts, stashes and nominators are endowed, the initial ones first and in
      their order; an account is endowed twice exactly when the initial list already names it twice. */
  lemma EndowedExact(initial: seq<AccountId>, authorities: seq<Authority>, nominators: seq<AccountId>)
    ensures var endowed := initial + Additions(initial, Stashes(authorities) + nominators);
            && initial <= endowed
            && (forall a :: a in endowed <==> a in initial || a in Stashes(authorities) || a in nominators)
            && (Distinct(endowed) <==> Distinct(initial))
  {
    var added := Additions(initial, Stashes(authorities) + nominators);
    AdditionsExact(initial, Stashes(authorities) + nominators);
    var endowed := initial + added;
    assert endowed[..|initial|] == initial;
    if Distinct(endowed) {
      forall i, j | 0 <= i < j < |initial| ensures initial[i] != initial[j] {
        assert endowed[i] == initial[i] && endowed[j] == initial[j];
      }
    }
    if Distinct(initial) {
      forall i, j | 0 <= i < j < |endowed| ensures endowed[i] != endowed[j] {
        if i < |initial| <= j {
          assert endowed[j] in added;
        }
      }
    }
  }

  // ---- Nominations ----

  predicate DistinctStashes(authorities: seq<Authority>) {
    Distinct(Stashes(authorities))
  }

  ghost predicate NominationsAlwaysDistinct(authorities: seq<Authority>) {
    forall draw :: GoodDraw(draw, authorities) ==> Distinct(Nominations(draw, authorities))
  }

  /** A list of nominations names stashes of authorities only, fewer than the limit and fewer than there are. */
  lemma NominationsBounded(draw: Draw, authorities: seq<Authority>)
    requires GoodDraw(draw, authorities)
    ensures |Nominations(draw, authorities)| < 16
    ensures |Nominations(draw, authorities)| < |authorities|
    ensures forall a :: a in Nominations(draw, authorities) ==> a in Stashes(authorities)
  {
    forall a | a in Nominations(draw, authorities) ensures a in Stashes(authorities) {
      var i :| 0 <= i < |draw.picks| && Nominations(draw, authorities)[i] == a;
      assert Stashes(authorities)[draw.picks[i]] == a;
    }
  }

  /** Main result: a draw can name any number of authorities from none up to, and not including, the limit. */
  lemma NominationCountExact(authorities: seq<Authority>, n: nat)
    ensures (exists draw :: GoodDraw(draw, authorities) && |Nominations(draw, authorities)| == n) <==>
            n < 16 && n < |authorities|
  {
    if n < Limit(authorities) {
      var picks: seq<nat> := seq(n, i => i);
      assert n % Limit(authorities) == n by {
        SmallRemainder(n, Limit(authorities));
      }
      assert |picks| == n && Distinct(picks);
      assert forall i :: 0 <= i < |picks| ==> picks[i] < |authorities|;
      var draw := Draw(n, picks);
      assert GoodDraw(draw, authorities);
      assert |Nominations(draw, authorities)| == n;
    }
  }

  lemma SmallRemainder(n: nat, m: nat)
    requires n < m
    ensures n % m == n
  {
  }

  /** So with any authorities a nominator can end up without nominations. */
  lemma SomeDrawIsEmpty(authorities: seq<Authority>)
    requires authorities != []
    ensures exists draw :: GoodDraw(draw, authorities) && Nominations(draw, authorities) == []
  {
    NominationCountExact(authorities, 0);
    var draw :| GoodDraw(draw, authorities) && |Nominations(draw, authorities)| == 0;
    assert Nominations(draw, authorities) == [];
  }

  /** Main result: nominators never nominate anybody exactly if there is a single authority. */
  lemma AlwaysEmptyExact(authorities: seq<Authority>)
    requires authorities != []
    ensures (forall draw :: GoodDraw(draw, authorities) ==> Nominations(draw, authorities) == []) <==>
            |authorities| == 1
  {
    NominationCountExact(authorities, 1);
    if |authorities| == 1 {
      forall draw | GoodDraw(draw, authorities) ensures Nominations(draw, authorities) == [] {
        NominationsBounded(draw, authorities);
      }
    } else {
      var draw :| GoodDraw(draw, authorities) && |Nominations(draw, authorities)| == 1;
      assert Nominations(draw, authorities) != [];
    }
  }

  lemma PickDistinct(draw: Draw, authorities: seq<Authority>)
    requires GoodDraw(draw, authorities) && (DistinctStashes(authorities) || |authorities| <= 2)
    ensures Distinct(Nominations(draw, authorities))
  {
    var stashes := Stashes(authorities);
    if |authorities| <= 2 {
      assert |draw.picks| <= 1;
    } else {
      forall i, j | 0 <= i < j < |draw.picks|
        ensures stashes[draw.picks[i]] != stashes[draw.picks[j]]
      {
        assert draw.picks[i] < draw.picks[j] || draw.picks[j] < draw.picks[i];
      }
    }
  }

  lemma RepeatedStashCanBePicked(authorities: seq<Authority>)
    requires !DistinctStashes(authorities) && |authorities| > 2
    ensures !NominationsAlwaysDistinct(authorities)
  {
    var stashes := Stashes(authorities);
    var i, j :| 0 <= i < j < |stashes| && stashes[i] == stashes[j];
    var draw := Draw(2, [i, j]);
    assert draw.raw % Limit(authorities) == 2 by {
      SmallRemainder(2, Limit(authorities));
    }
    assert Distinct(draw.picks) && draw.picks[0] < |authorities| && draw.picks[1] < |authorities|;
    assert GoodDraw(draw, authorities);
    assert Nominations(draw, authorities)[0] == Nominations(draw, authorities)[1];
  }

  /** Main result: no outcome of the draw repeats a nomination exactly if the stashes are distinct, or there are so
      few authorities that at most one is ever drawn. */
  lemma NominationsDistinctExact(authorities: seq<Authority>)
    ensures NominationsAlwaysDistinct(authorities) <==> DistinctStashes(authorities) || |authorities| <= 2
  {
    if DistinctStashes(authorities) || |authorities| <= 2 {
      forall draw | GoodDraw(draw, authorities) ensures Distinct(Nominations(draw, authorities)) {
        PickDistinct(draw, authorities);
      }
    } else {
      RepeatedStashCanBePicked(authorities);
    }
  }

  /** Main result: every nominated account is a validator among the stakers and owns session keys. */
  lemma NominationsAreBacked(c: Config, sudoKey: AccountId, initialAccounts: seq<AccountId>,
                             authorities: seq<Authority>, nominators: seq<AccountId>, chainId: nat,
                             draws: seq<Draw>, s: Staker, target: AccountId)
    requires BuiltFrom(c, sudoKey, initialAccounts, authorities, nominators, chainId, draws)
    requires s in c.stakers && s.status.Nominator? && target in s.status.nominations
    ensures exists v :: v in c.stakers && v.stash == target && v.status == Validator
    ensures exists k :: k in c.sessionKeys && k.validator == target
    ensures target in c.invulnerables
    ensures |s.status.nominations| < Min(16, c.validatorCount)
  {
    var n := |authorities|;
    var i :| 0 <= i < |c.stakers| && c.stakers[i] == s;
    assert i >= n;
    var draw := draws[i - n];
    assert s.status.nominations == Nominations(draw, authorities);
    NominationsBounded(draw, authorities);
    var p :| 0 <= p < n && Stashes(authorities)[p] == target;
    assert c.stakers[p] == ValidatorStakers(authorities)[p];
    assert c.stakers[p] in c.stakers;
    assert Keys(authorities)[p] in c.sessionKeys;
  }

  // ---- The lists in detail ----

  /** Main result: entry by entry, what each authority and each nominator finds in the session keys, among the
      invulnerables and among the stakers. */
  lemma ListsInDetail(c: Config, sudoKey: AccountId, initialAccounts: seq<AccountId>, authorities: seq<Authority>,
                      nominators: seq<AccountId>, chainId: nat, draws: seq<Draw>)
    requires BuiltFrom(c, sudoKey, initialAccounts, authorities, nominators, chainId, draws)
    ensures |c.sessionKeys| == |c.invulnerables| == c.validatorCount == c.minimumValidatorCount == |authorities|
    ensures |c.stakers| == |authorities| + |nominators|
    ensures forall i :: 0 <= i < |authorities| ==>
              && c.sessionKeys[i].account == authorities[i].controller
              && c.sessionKeys[i].validator == authorities[i].stash
              && c.sessionKeys[i].babe == authorities[i].babe
              && c.sessionKeys[i].grandpa == authorities[i].grandpa
              && c.sessionKeys[i].imOnline == authorities[i].imOnline
              && c.invulnerables[i] == authorities[i].stash
              && c.stakers[i].stash == authorities[i].stash
              && c.stakers[i].controller == authorities[i].controller
              && c.stakers[i].bond == 100_000_000_000_000_000_000_000
              && c.stakers[i].status == Validator
    ensures forall j :: 0 <= j < |nominators| ==>
              var s := c.stakers[|authorities| + j];
              && s.stash == s.controller == nominators[j]
              && s.bond == 100_000_000_000_000_000_000_000
              && s.status.Nominator?
              && |s.status.nominations| == |draws[j].picks|
              && forall k :: 0 <= k < |draws[j].picks| ==>
                   draws[j].picks[k] < |authorities| && s.status.nominations[k] == authorities[draws[j].picks[k]].stash
  {
  }

  /** The settings that do not depend on the lists, in base units. */
  lemma SettingsInDetail(c: Config, sudoKey: AccountId, initialAccounts: seq<AccountId>, authorities: seq<Authority>,
                         nominators: seq<AccountId>, chainId: nat, draws: seq<Draw>)
    requires BuiltFrom(c, sudoKey, initialAccounts, authorities, nominators, chainId, draws)
    ensures c.sudoKey == sudoKey && c.chainId == chainId && c.slashRewardPercent == 10
    ensures c.minValidatorBond == 75_000_000_000_000_000_000_000
    ensures c.minNominatorBond == c.minCreateBond == 10_000_000_000_000_000_000
    ensures c.minJoinBond == 1_000_000_000_000_000_000
    ensures c.epochConfig == EpochConfig(1, 4, PrimaryAndSecondaryPlainSlots)
  {
  }

  /** The number of nominations is the remainder of the raw draw by the smaller of 16 and the number of authorities. */
  lemma NominationCountInDetail(draw: Draw, authorities: seq<Authority>)
    requires GoodDraw(draw, authorities)
    ensures |Nominations(draw, authorities)|
         == draw.raw % (if |authorities| < 16 then |authorities| else 16)
  {
  }

  /** Main result: who is endowed first, everybody with how much, and who of them sits on the committee. */
  lemma BalancesInDetail(c: Config, sudoKey: AccountId, initialAccounts: seq<AccountId>, authorities: seq<Authority>,
                         nominators: seq<AccountId>, chainId: nat, draws: seq<Draw>)
    requires BuiltFrom(c, sudoKey, initialAccounts, authorities, nominators, chainId, draws)
    ensures |initialAccounts| <= |c.balances|
    ensures forall i :: 0 <= i < |initialAccounts| ==> c.balances[i].0 == initialAccounts[i]
    ensures forall i :: 0 <= i < |c.balances| ==> c.balances[i].1 == 100_000_000_000_000_000_000_000_000
    ensures forall i :: 0 <= i < |c.technicalCommittee| <= |c.balances| ==>
              && c.technicalCommittee[i] == c.balances[i].0
              && c.electionMembers[i] == (c.balances[i].0, 100_000_000_000_000_000_000_000)
  {
  }

  /** Main result: exactly the initial accounts, the nominators and the stashes of the authorities are endowed. */
  lemma EndowedInDetail(c: Config, sudoKey: AccountId, initialAccounts: seq<AccountId>, authorities: seq<Authority>,
                        nominators: seq<AccountId>, chainId: nat, draws: seq<Draw>, a: AccountId)
    requires BuiltFrom(c, sudoKey, initialAccounts, authorities, nominators, chainId, draws)
    ensures (exists i :: 0 <= i < |c.balances| && c.balances[i].0 == a) <==>
            || a in initialAccounts
            || a in nominators
            || exists i :: 0 <= i < |authorities| && authorities[i].stash == a
  {
    var endowed := initialAccounts + Additions(initialAccounts, Stashes(authorities) + nominators);
    EndowedExact(initialAccounts, authorities, nominators);
    AccountsOfEntries(endowed, ENDOWMENT, a);
    StashesOfAuthorities(authorities, a);
    assert c.balances == WithAmount(endowed, ENDOWMENT);
  }

  lemma AccountsOfEntries(accounts: seq<AccountId>, amount: Balance, a: AccountId)
    ensures var entries := WithAmount(accounts, amount);
            a in accounts <==> exists i :: 0 <= i < |entries| && entries[i].0 == a
  {
    var entries := WithAmount(accounts, amount);
    if a in accounts {
      var i :| 0 <= i < |accounts| && accounts[i] == a;
      assert entries[i].0 == a;
    }
  }

  lemma StashesOfAuthorities(authorities: seq<Authority>, a: AccountId)
    ensures a in Stashes(authorities) <==> exists i :: 0 <= i < |authorities| && authorities[i].stash == a
  {
    if i :| 0 <= i < |authorities| && authorities[i].stash == a {
      assert Stashes(authorities)[i] == a;
    }
  }

  /** Main result: behind the initial accounts, the endowed ones stand in the order in which the stashes and, after
      them, the nominators first name them. */
  lemma EndowmentsInOrder(c: Config, sudoKey: AccountId, initialAccounts: seq<AccountId>, authorities: seq<Authority>,
                          nominators: seq<AccountId>, chainId: nat, draws: seq<Draw>, i: nat, j: nat)
    requires BuiltFrom(c, sudoKey, initialAccounts, authorities, nominators, chainId, draws)
    requires |initialAccounts| <= i < j < |c.balances|
    ensures var stashes := seq(|authorities|, k requires 0 <= k < |authorities| => authorities[k].stash);
            var candidates := stashes + nominators;
            exists p: nat :: p < |candidates| && candidates[p] == c.balances[i].0
                             && c.balances[j].0 !in candidates[..p + 1]
  {
    var n := |initialAccounts|;
    var added := Additions(initialAccounts, Stashes(authorities) + nominators);
    assert c.balances[i].0 == added[i - n] && c.balances[j].0 == added[j - n];
    AdditionsInOrder(initialAccounts, Stashes(authorities) + nominators, i - n, j - n);
  }

  // ---- Funding ----

  function Total(entries: seq<(AccountId, Balance)>, a: AccountId): Balance {
    if entries == [] then 0 else
      var e := entries[|entries| - 1];
      Total(entries[..|entries| - 1], a) + if e.0 == a then e.1 else 0
  }

  function Bonds(stakers: seq<Staker>): seq<(AccountId, Balance)> {
    seq(|stakers|, i requires 0 <= i < |stakers| => (stakers[i].stash, stakers[i].bond))
  }

  function Occurrences(accounts: seq<AccountId>, a: AccountId): nat {
    multiset(accounts)[a]
  }

  lemma {:induction false} TotalOfEqualAmounts(accounts: seq<AccountId>, amount: Balance, a: AccountId)
    ensures Total(WithAmount(accounts, amount), a) == Occurrences(accounts, a) * amount
  {
    if accounts != [] {
      var init, last := accounts[..|accounts| - 1], accounts[|accounts| - 1];
      TotalOfEqualAmounts(init, amount, a);
      var entries := WithAmount(accounts, amount);
      assert entries[..|entries| - 1] == WithAmount(init, amount);
      assert entries[|entries| - 1] == (last, amount);
      OccurrencesSnoc(init, last, a);
      assert accounts == init + [last];
      OneMore(Occurrences(init, a), amount);
    }
  }

  lemma OccurrencesSnoc(init: seq<AccountId>, last: AccountId, a: AccountId)
    ensures Occurrences(init + [last], a) == Occurrences(init, a) + if last == a then 1 else 0
  {
  }

  lemma OneMore(n: nat, amount: nat)
    ensures (n + 1) * amount == n * amount + amount
  {
  }

  lemma {:induction false} OccurrencesOfDistinct(accounts: seq<AccountId>, a: AccountId)
    requires Distinct(accounts)
    ensures Occurrences(accounts, a) == if a in accounts then 1 else 0
  {
    if accounts != [] {
      var init, last := accounts[..|accounts| - 1], accounts[|accounts| - 1];
      OccurrencesOfDistinct(init, a);
      OccurrencesSnoc(init, last, a);
      assert accounts == init + [last];
    }
  }

  /** The accounts that bond a stake: all stashes, then all nominators. */
  lemma BondsOfStakers(authorities: seq<Authority>, nominators: seq<AccountId>, draws: seq<Draw>)
    requires |draws| == |nominators| && forall i :: 0 <= i < |draws| ==> GoodDraw(draws[i], authorities)
    ensures Bonds(ValidatorStakers(authorities) + NominatorStakers(authorities, nominators, draws))
         == WithAmount(Stashes(authorities) + nominators, STASH)
  {
  }

  /** How often an account has to put up a stash: as a staker, and as an elected member. */
  function Claims(c: Config, authorities: seq<Authority>, nominators: seq<AccountId>, a: AccountId): nat {
    Occurrences(Stashes(authorities) + nominators, a) + Occurrences(c.technicalCommittee, a)
  }

  /** An account covers everything it puts up exactly when it does so at most a thousand times per endowment. */
  lemma FundingExact(c: Config, sudoKey: AccountId, initialAccounts: seq<AccountId>, authorities: seq<Authority>,
                     nominators: seq<AccountId>, chainId: nat, draws: seq<Draw>, a: AccountId)
    requires BuiltFrom(c, sudoKey, initialAccounts, authorities, nominators, chainId, draws)
    ensures var endowed := initialAccounts + Additions(initialAccounts, Stashes(authorities) + nominators);
            Total(Bonds(c.stakers), a) + Total(c.electionMembers, a) <= Total(c.balances, a) <==>
            Claims(c, authorities, nominators, a) <= 1000 * Occurrences(endowed, a)
  {
    var endowed := initialAccounts + Additions(initialAccounts, Stashes(authorities) + nominators);
    BondsOfStakers(authorities, nominators, draws);
    TotalOfEqualAmounts(Stashes(authorities) + nominators, STASH, a);
    TotalOfEqualAmounts(c.technicalCommittee, STASH, a);
    TotalOfEqualAmounts(endowed, ENDOWMENT, a);
    StashesPerEndowment(Occurrences(Stashes(authorities) + nominators, a), Occurrences(c.technicalCommittee, a),
                        Occurrences(endowed, a));
  }

  lemma StashesPerEndowment(stakes: nat, seats: nat, endowments: nat)
    ensures stakes * STASH + seats * STASH <= endowments * ENDOWMENT <==> stakes + seats <= 1000 * endowments
  {
    assert ENDOWMENT == 1000 * STASH;
    assert endowments * ENDOWMENT == (1000 * endowments) * STASH;
    Scale(stakes + seats, 1000 * endowments, STASH);
  }

  lemma Scale(n: nat, m: nat, unit: nat)
    requires unit > 0
    ensures n * unit <= m * unit <==> n <= m
  {
    if n > m {
      MulMonotone(m + 1, n, unit, unit);
      assert (m + 1) * unit == m * unit + unit;
    } else {
      MulMonotone(n, m, unit, unit);
    }
  }

  /** Main result: with lists that name nobody twice, every account covers all its stakes, even one that is
      validator, nominator and elected member at once. */
  lemma EveryStakerIsFunded(c: Config, sudoKey: AccountId, initialAccounts: seq<AccountId>, authorities: seq<Authority>,
                            nominators: seq<AccountId>, chainId: nat, draws: seq<Draw>, a: AccountId)
    requires BuiltFrom(c, sudoKey, initialAccounts, authorities, nominators, chainId, draws)
    requires Distinct(initialAccounts) && DistinctStashes(authorities) && Distinct(nominators)
    ensures Total(Bonds(c.stakers), a) + Total(c.electionMembers, a) <= Total(c.balances, a)
  {
    var stashes := Stashes(authorities);
    var endowed := initialAccounts + Additions(initialAccounts, stashes + nominators);
    EndowedExact(initialAccounts, authorities, nominators);
    OccurrencesOfDistinct(endowed, a);
    OccurrencesOfDistinct(stashes, a);
    OccurrencesOfDistinct(nominators, a);
    OccurrencesOfDistinct(c.technicalCommittee, a);
    assert a in c.technicalCommittee ==> a in endowed;
    assert Occurrences(stashes + nominators, a) == Occurrences(stashes, a) + Occurrences(nominators, a);
    FundingExact(c, sudoKey, initialAccounts, authorities, nominators, chainId, draws, a);
  }

  /** Elected members and committee are the first half of the endowed accounts, rounded up. They are all taken from
      the front of the initial list exactly if no more accounts were added than it holds. */
  lemma CommitteeExact(c: Config, sudoKey: AccountId, initialAccounts: seq<AccountId>, authorities: seq<Authority>,
                       nominators: seq<AccountId>, chainId: nat, draws: seq<Draw>)
    requires BuiltFrom(c, sudoKey, initialAccounts, authorities, nominators, chainId, draws)
    ensures |c.balances| <= 2 * |c.technicalCommittee| <= |c.balances| + 1
    ensures c.electionMembers == WithAmount(c.technicalCommittee, STASH)
    ensures c.technicalCommittee <= initialAccounts <==> |c.balances| <= 2 * |initialAccounts|
    ensures |c.balances| > 2 * |initialAccounts| ==> initialAccounts < c.technicalCommittee
  {
    var added := Additions(initialAccounts, Stashes(authorities) + nominators);
    var n := |c.technicalCommittee|;
    if n <= |initialAccounts| {
      assert (initialAccounts + added)[..n] == initialAccounts[..n];
    } else {
      assert (initialAccounts + added)[..n] == initialAccounts + added[..n - |initialAccounts|];
    }
  }

  /** Every entry among the stakers is endowed, and its bond meets the minimum for its role. */
  lemma BondsMeetMinimum(c: Config, sudoKey: AccountId, initialAccounts: seq<AccountId>, authorities: seq<Authority>,
                         nominators: seq<AccountId>, chainId: nat, draws: seq<Draw>, s: Staker)
    requires BuiltFrom(c, sudoKey, initialAccounts, authorities, nominators, chainId, draws)
    requires s in c.stakers
    ensures (s.stash, ENDOWMENT) in c.balances
    ensures s.bond >= if s.status.Validator? then c.minValidatorBond else c.minNominatorBond
  {
    StakerOrigin(authorities, nominators, draws, s);
    EndowedExact(initialAccounts, authorities, nominators);
    EntryOf(initialAccounts + Additions(initialAccounts, Stashes(authorities) + nominators), ENDOWMENT, s.stash);
  }

  lemma StakerOrigin(authorities: seq<Authority>, nominators: seq<AccountId>, draws: seq<Draw>, s: Staker)
    requires |draws| == |nominators| && forall i :: 0 <= i < |draws| ==> GoodDraw(draws[i], authorities)
    requires s in ValidatorStakers(authorities) + NominatorStakers(authorities, nominators, draws)
    ensures s.bond == STASH
    ensures s.stash in Stashes(authorities) || s.stash in nominators
  {
    if s in ValidatorStakers(authorities) {
      var i :| 0 <= i < |authorities| && ValidatorStakers(authorities)[i] == s;
      assert Stashes(authorities)[i] == s.stash;
    }
  }

  lemma EntryOf(accounts: seq<AccountId>, amount: Balance, a: AccountId)
    requires a in accounts
    ensures (a, amount) in WithAmount(accounts, amount)
  {
    var k :| 0 <= k < |accounts| && accounts[k] == a;
    assert WithAmount(accounts, amount)[k] == (a, amount);
  }
}
