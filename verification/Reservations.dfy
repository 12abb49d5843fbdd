/**
  Funding reservations of lnwallet/wallet.go: a single goroutine handles requests one by one,
  locking the coins of a new reservation and unlocking them when it is cancelled. A reservation
  that completes leaves limbo with its coins still locked.
*/
module Reservations {
  import opened Basics

  datatype Coin = Coin(op: OutPoint, value: int)

  function TotalValue(coins: seq<Coin>): int {
    if coins == [] then 0 else coins[0].value + TotalValue(coins[1..])
  }

  function OutPointsOf(coins: seq<Coin>): set<OutPoint> {
    set c | c in coins :: c.op
  }

  lemma {:induction false} NothingToLock()
    ensures OutPointsOf([]) == {}
  {
  }

  /**
    Our side of a ChannelReservation; `ready` once the whole request has succeeded, `funded` and
    `committed` once a contribution of the other side has made FundingTx and OurCommitTx non-nil.
  */
  datatype Reservation = Reservation(fundingAmount: int, capacity: int, coins: seq<Coin>, change: int, ready: bool,
                                     funded: bool, committed: bool) {
    function Inputs(): set<OutPoint> {
      OutPointsOf(coins)
    }
  }

  /** newChannelReservation: channels are balanced, so both sides put in the same amount. */
  function NewChannelReservation(fundingAmt: int): Reservation {
    Reservation(fundingAmt, fundingAmt * 2, [], 0, false, false, false)
  }

  /** fundingLimbo, nextFundingID and the locked outpoints; `completed` and `panicked` are history. */
  datatype State = State(limbo: map<nat, Reservation>, nextID: nat, locked: set<OutPoint>, completed: map<nat, Reservation>, panicked: bool)

  const EMPTY := State(map[], 0, {}, map[], false)

  /** How far a reservation request gets, decided by the wallet and the chain. */
  datatype Attempt =
    | NoCoins                                           // listing outputs or coin selection failed
    | LaterError(coins: seq<Coin>, afterChange: bool)   // with the coins locked, an address or key could not be made
    | Complete(coins: seq<Coin>)

  /** How far the handling of a contribution gets. */
  datatype Progress = FundingTxOnly | CommitTxs | Signed

  /** What the signatures of the other side turn out to be; a short list has none for some input. */
  datatype SigCheck = FundingShort | FundingBad | CommitBad | AllValid

  datatype Request =
    | Reserve(amount: int, attempt: Attempt)
    | Cancel(id: nat)
    | Contribute(id: nat, progress: Progress)
    | CompleteSigs(id: nat, check: SigCheck)

  /** Coin selection only offers outputs that are not locked, each once, and enough of them. */
  ghost predicate SelectionOk(locked: set<OutPoint>, amount: int, coins: seq<Coin>) {
    && (forall i :: 0 <= i < |coins| ==> coins[i].op !in locked)
    && (forall i, j :: 0 <= i < j < |coins| ==> coins[i].op != coins[j].op)
    && TotalValue(coins) >= amount
  }

  ghost predicate Admissible(s: State, r: Request) {
    r.Reserve? && !r.attempt.NoCoins? ==> SelectionOk(s.locked, r.amount, r.attempt.coins)
  }

  /** The reservation a request leaves in limbo; a failed one stays there with what it got. */
  function Reserved(amount: int, attempt: Attempt): Reservation {
    match attempt
    case NoCoins => NewChannelReservation(amount)
    case LaterError(coins, afterChange) =>
      NewChannelReservation(amount).(coins := coins, change := if afterChange then ChangeOf(coins, amount) else 0)
    case Complete(coins) =>
      NewChannelReservation(amount).(coins := coins, change := ChangeOf(coins, amount), ready := true)
  }

  function ChangeOf(coins: seq<Coin>, amount: int): int {
    var total := TotalValue(coins);
    if total > amount then total - amount else 0
  }

  function Step(s: State, r: Request): State {
    match r
    case Reserve(amount, attempt) =>
      var res := Reserved(amount, attempt);
      s.(limbo := s.limbo[s.nextID := res], nextID := s.nextID + 1, locked := s.locked + res.Inputs())
    case Cancel(id) =>
      if id !in s.limbo then s else s.(limbo := s.limbo - {id}, locked := s.locked - s.limbo[id].Inputs())
    case Contribute(id, progress) =>
      if id !in s.limbo then s else s.(limbo := s.limbo[id := Contributed(s.limbo[id], progress)])
    case CompleteSigs(id, check) =>
      if id !in s.limbo then s
      else if SigsPanic(s.limbo[id], check) then s.(panicked := true)
      else if !check.AllValid? then s
      else s.(limbo := s.limbo - {id}, completed := s.completed[id := s.limbo[id]])
  }

  function Contributed(r: Reservation, progress: Progress): Reservation {
    r.(funded := true, committed := r.committed || !progress.FundingTxOnly?)
  }

  /**
    No funding transaction to go through, no signature at the index of an input that verifies
    without one, or no commitment transaction to sign once the funding inputs are done.
  */
  predicate SigsPanic(r: Reservation, check: SigCheck) {
    !r.funded || check.FundingShort? || (!check.FundingBad? && !r.committed)
  }

  // ----- The invariant -----

  predicate Known(s: State, id: nat) {
    id in s.limbo || id in s.completed
  }

  function Get(s: State, id: nat): Reservation
    requires Known(s, id)
  {
    if id in s.limbo then s.limbo[id] else s.completed[id]
  }

  /** Every id was issued once. */
  ghost predicate IdsOk(s: State) {
    && s.limbo.Keys !! s.completed.Keys
    && (forall id: nat :: Known(s, id) ==> id < s.nextID)
  }

  /** No coin is an input of two reservations. */
  ghost predicate InputsDisjoint(s: State) {
    forall i, j :: Known(s, i) && Known(s, j) && i != j ==> Get(s, i).Inputs() !! Get(s, j).Inputs()
  }

  /** Exactly the inputs of pending and completed reservations are locked. */
  ghost predicate LockedIsUnion(s: State) {
    && (forall id :: Known(s, id) ==> Get(s, id).Inputs() <= s.locked)
    && (forall op :: op in s.locked ==> exists id :: Known(s, id) && op in Get(s, id).Inputs())
  }

  /** What a successful reservation spends is what it funds plus its change. */
  ghost predicate ValueConserved(s: State) {
    forall id :: Known(s, id) && Get(s, id).ready ==>
      var r := Get(s, id); TotalValue(r.coins) == r.fundingAmount + r.change && r.change >= 0
  }

  /** What is completed had a funding and a commitment transaction. */
  ghost predicate CompletedAreFunded(s: State) {
    forall id :: id in s.completed ==> s.completed[id].funded && s.completed[id].committed
  }

  /** The channel will hold what both sides put in, the same amount each, whether or not the request succeeded. */
  ghost predicate Balanced(s: State) {
    forall id :: Known(s, id) ==> Get(s, id).capacity == Get(s, id).fundingAmount + Get(s, id).fundingAmount
  }

  ghost predicate Inv(s: State) {
    IdsOk(s) && InputsDisjoint(s) && LockedIsUnion(s) && ValueConserved(s) && CompletedAreFunded(s) && Balanced(s)
  }

  lemma {:induction false} ReserveKeepsInv(s: State, r: Request)
    requires Inv(s) && r.Reserve? && Admissible(s, r)
    ensures Inv(Step(s, r))
    ensures !Known(s, s.nextID) && Step(s, r).limbo[s.nextID].Inputs() !! s.locked
  {
    var s', res := Step(s, r), Reserved(r.amount, r.attempt);
    assert !Known(s, s.nextID);
    assert Get(s', s.nextID) == res;
    assert forall id :: Known(s', id) <==> Known(s, id) || id == s.nextID;
    assert forall id :: Known(s, id) ==> Get(s', id) == Get(s, id);
    assert res.Inputs() !! s.locked;
    forall op | op in s'.locked
      ensures exists id :: Known(s', id) && op in Get(s', id).Inputs()
    {
      if op in s.locked {
        var id :| Known(s, id) && op in Get(s, id).Inputs();
        assert Known(s', id) && op in Get(s', id).Inputs();
      } else {
        assert Known(s', s.nextID) && op in Get(s', s.nextID).Inputs();
      }
    }
  }

  lemma {:induction false} CancelKeepsInv(s: State, r: Request)
    requires Inv(s) && r.Cancel?
    ensures Inv(Step(s, r))
    ensures r.id in s.limbo ==> Step(s, r).locked !! s.limbo[r.id].Inputs()
  {
    if r.id in s.limbo {
      var s', gone := Step(s, r), s.limbo[r.id];
      assert Known(s, r.id) && Get(s, r.id) == gone;
      assert forall id :: Known(s', id) <==> Known(s, id) && id != r.id;
      assert forall id :: Known(s', id) ==> Get(s', id) == Get(s, id);
      forall op | op in s'.locked
        ensures exists id :: Known(s', id) && op in Get(s', id).Inputs()
      {
        var id :| Known(s, id) && op in Get(s, id).Inputs();
        assert id != r.id;
        assert Known(s', id) && op in Get(s', id).Inputs();
      }
    }
  }

  lemma {:induction false} ContributeKeepsInv(s: State, r: Request)
    requires Inv(s) && r.Contribute?
    ensures Inv(Step(s, r))
  {
    var s' := Step(s, r);
    if r.id in s.limbo {
      assert forall id :: Known(s', id) <==> Known(s, id);
      assert forall id :: Known(s, id) ==> Get(s', id) == Get(s, id).(funded := Get(s', id).funded, committed := Get(s', id).committed);
      assert forall id :: Known(s, id) ==> Get(s', id).Inputs() == Get(s, id).Inputs();
      forall op | op in s'.locked
        ensures exists id :: Known(s', id) && op in Get(s', id).Inputs()
      {
        var id :| Known(s, id) && op in Get(s, id).Inputs();
        assert Known(s', id) && op in Get(s', id).Inputs();
      }
    }
  }

  /** Signatures panic exactly if the id is pending and a transaction or a signature is missing. */
  lemma {:induction false} CompleteKeepsInv(s: State, r: Request)
    requires Inv(s) && r.CompleteSigs? && !s.panicked
    ensures Inv(Step(s, r))
    ensures Step(s, r).panicked <==> r.id in s.limbo && SigsPanic(s.limbo[r.id], r.check)
  {
    var s' := Step(s, r);
    assert forall id :: Known(s', id) <==> Known(s, id);
    assert forall id :: Known(s, id) ==> Get(s', id) == Get(s, id);
    forall op | op in s'.locked
      ensures exists id :: Known(s', id) && op in Get(s', id).Inputs()
    {
      var id :| Known(s, id) && op in Get(s, id).Inputs();
      assert Known(s', id) && op in Get(s', id).Inputs();
    }
  }

  // ----- Runs -----

  /** Requests are handled one by one, until one of them panics. */
  function Run(s: State, rs: seq<Request>): State
    decreases |rs|
  {
    if rs == [] || s.panicked then s else Run(Step(s, rs[0]), rs[1..])
  }

  ghost predicate AllAdmissible(s: State, rs: seq<Request>)
    decreases |rs|
  {
    rs != [] && !s.panicked ==> Admissible(s, rs[0]) && AllAdmissible(Step(s, rs[0]), rs[1..])
  }

  /** Whatever requests are handled, in whatever order, no coin is ever promised twice. */
  lemma {:induction false} EveryRunKeepsInv(s: State, rs: seq<Request>)
    requires Inv(s) && AllAdmissible(s, rs)
    ensures Inv(Run(s, rs))
    decreases |rs|
  {
    hide Inv, Step, Admissible;
    if rs == [] || s.panicked {
    } else {
      match rs[0] {
        case Reserve(_, _) => ReserveKeepsInv(s, rs[0]);
        case Cancel(_) => CancelKeepsInv(s, rs[0]);
        case Contribute(_, _) => ContributeKeepsInv(s, rs[0]);
        case CompleteSigs(_, _) => CompleteKeepsInv(s, rs[0]);
      }
      EveryRunKeepsInv(Step(s, rs[0]), rs[1..]);
    }
  }

  /** A completed reservation stays as it is, and no later request releases its coins. */
  lemma {:induction false} CompletedStaysLocked(s: State, rs: seq<Request>, id: nat)
    requires Inv(s) && AllAdmissible(s, rs) && id in s.completed
    ensures id in Run(s, rs).completed && Run(s, rs).completed[id] == s.completed[id]
    ensures s.completed[id].Inputs() <= Run(s, rs).locked
    decreases |rs|
  {
    if rs == [] || s.panicked {
      assert Known(s, id) && Get(s, id) == s.completed[id];
    } else {
      CompletedStep(s, rs[0], id);
      EveryRunKeepsInv(s, rs[..1]);
      assert rs[..1][1..] == [] && Run(s, rs[..1]) == Step(s, rs[0]) by {
        assert Run(Step(s, rs[0]), []) == Step(s, rs[0]);
      }
      CompletedStaysLocked(Step(s, rs[0]), rs[1..], id);
    }
  }

  lemma {:induction false} CompletedStep(s: State, r: Request, id: nat)
    requires Inv(s) && id in s.completed
    ensures id in Step(s, r).completed && Step(s, r).completed[id] == s.completed[id]
  {
  }

  /** Ids only grow: what is issued later never coincides with an id issued before. */
  lemma {:induction false} IdsNeverReused(s: State, rs: seq<Request>)
    ensures Run(s, rs).nextID >= s.nextID
    ensures forall id :: id in Run(s, rs).limbo && id < s.nextID ==>
      id in s.limbo && s.limbo[id] == Run(s, rs).limbo[id].(funded := s.limbo[id].funded, committed := s.limbo[id].committed)
    decreases |rs|
  {
    if rs == [] || s.panicked {
    } else {
      IdsNeverReused(Step(s, rs[0]), rs[1..]);
    }
  }

  // ----- The wallet -----

  lemma {:induction false} EntryRewritten(m: map<nat, Reservation>, id: nat, a: Reservation, b: Reservation)
    ensures m[id := a][id := b] == m[id := b]
  {
  }

  datatype SigsResult = UnknownId | Panicked | BadSignature | Completed

  class LightningWallet {
    var fundingLimbo: map<nat, Reservation>
    var nextFundingID: nat
    var lockedOutpoints: set<OutPoint>
    ghost var completed: map<nat, Reservation>
    ghost var panicked: bool

    constructor ()
      ensures View() == EMPTY
    {
      fundingLimbo, nextFundingID, lockedOutpoints, completed, panicked := map[], 0, {}, map[], false;
    }

    ghost function View(): State
      reads this
    {
      State(fundingLimbo, nextFundingID, lockedOutpoints, completed, panicked)
    }

    /** LockOutpoint for each selected coin. */
    method LockCoins(coins: seq<Coin>)
      modifies this`lockedOutpoints
      ensures lockedOutpoints == old(lockedOutpoints) + OutPointsOf(coins)
    {
      var i := 0;
      while i < |coins|
        invariant i <= |coins|
        invariant lockedOutpoints == old(lockedOutpoints) + OutPointsOf(coins[..i])
      {
        assert coins[..i + 1] == coins[..i] + [coins[i]];
        lockedOutpoints := lockedOutpoints + {coins[i].op};
        i := i + 1;
      }
      assert coins[..|coins|] == coins;
    }

    /** UnlockOutpoint for each input of a cancelled reservation. */
    method UnlockCoins(coins: seq<Coin>)
      modifies this`lockedOutpoints
      ensures lockedOutpoints == old(lockedOutpoints) - OutPointsOf(coins)
    {
      var i := 0;
      while i < |coins|
        invariant i <= |coins|
        invariant lockedOutpoints == old(lockedOutpoints) - OutPointsOf(coins[..i])
      {
        assert coins[..i + 1] == coins[..i] + [coins[i]];
        lockedOutpoints := lockedOutpoints - {coins[i].op};
        i := i + 1;
      }
      assert coins[..|coins|] == coins;
    }

    /** handleFundingReserveRequest: the limbo entry exists before anything can fail. */
    method HandleFundingReserveRequest(amount: int, attempt: Attempt) returns (res: Option<Reservation>)
      requires Inv(View()) && Admissible(View(), Reserve(amount, attempt))
      modifies this
      ensures View() == Step(old(View()), Reserve(amount, attempt)) && Inv(View())
      ensures res.Some? <==> attempt.Complete?
      ensures res.Some? ==> res.value.fundingAmount == amount && res.value.capacity == amount + amount
      ensures res.Some? ==> res.value.coins == attempt.coins && TotalValue(attempt.coins) == amount + res.value.change
    {
      ReserveKeepsInv(View(), Reserve(amount, attempt));
      hide Inv, TotalValue, OutPointsOf, SelectionOk;
      NothingToLock();
      var id := nextFundingID;
      ghost var before := fundingLimbo;
      var reservation := NewChannelReservation(amount);
      nextFundingID := nextFundingID + 1;
      fundingLimbo := fundingLimbo[id := reservation];
      if attempt.NoCoins? {
        return None;
      }
      var coins := attempt.coins;
      LockCoins(coins);
      EntryRewritten(before, id, reservation, reservation.(coins := coins));
      reservation := reservation.(coins := coins);
      fundingLimbo := fundingLimbo[id := reservation];
      if attempt.LaterError? && !attempt.afterChange {
        return None;
      }
      var selectedTotalValue := TotalValue(coins);
      if selectedTotalValue > amount {
        EntryRewritten(before, id, reservation, reservation.(change := selectedTotalValue - amount));
        reservation := reservation.(change := selectedTotalValue - amount);
        fundingLimbo := fundingLimbo[id := reservation];
      }
      assert fundingLimbo == before[id := reservation];
      if attempt.LaterError? {
        return None;
      }
      EntryRewritten(before, id, reservation, reservation.(ready := true));
      reservation := reservation.(ready := true);
      fundingLimbo := fundingLimbo[id := reservation];
      return Some(reservation);
    }

    /** handleFundingCancelRequest */
    method HandleFundingCancelRequest(id: nat) returns (ok: bool)
      requires Inv(View())
      modifies this
      ensures View() == Step(old(View()), Cancel(id)) && Inv(View())
      ensures ok <==> id in old(fundingLimbo)
    {
      CancelKeepsInv(View(), Cancel(id));
      hide Inv;
      if id !in fundingLimbo {
        return false;
      }
      UnlockCoins(fundingLimbo[id].coins);
      fundingLimbo := fundingLimbo - {id};
      return true;
    }

    /** handleContributionMsg: a fresh funding transaction first, the commitment transactions later. */
    method HandleContributionMsg(id: nat, progress: Progress) returns (ok: bool)
      requires Inv(View())
      modifies this
      ensures View() == Step(old(View()), Contribute(id, progress)) && Inv(View())
      ensures ok <==> id in old(fundingLimbo) && progress.Signed?
    {
      ContributeKeepsInv(View(), Contribute(id, progress));
      hide Inv;
      if id !in fundingLimbo {
        return false;
      }
      ghost var before := fundingLimbo;
      var reservation := fundingLimbo[id].(funded := true);
      fundingLimbo := fundingLimbo[id := reservation];
      if progress.FundingTxOnly? {
        return false;
      }
      EntryRewritten(before, id, reservation, reservation.(committed := true));
      fundingLimbo := fundingLimbo[id := reservation.(committed := true)];
      return progress.Signed?;
    }

    /**
      handleFundingCounterPartySigs: the funding inputs first, then the commitment transaction; with
      valid signatures the entry leaves limbo, and its coins stay locked.
    */
    method HandleFundingCounterPartySigs(id: nat, check: SigCheck) returns (r: SigsResult)
      requires Inv(View()) && !panicked
      modifies this
      ensures View() == Step(old(View()), CompleteSigs(id, check)) && Inv(View())
      ensures r == UnknownId <==> id !in old(fundingLimbo)
      ensures r == Panicked <==> id in old(fundingLimbo) && SigsPanic(old(fundingLimbo)[id], check)
      ensures r == Panicked <==> panicked
      ensures r == Completed <==> id in old(fundingLimbo) && old(fundingLimbo)[id].funded && old(fundingLimbo)[id].committed && check.AllValid?
    {
      CompleteKeepsInv(View(), CompleteSigs(id, check));
      hide Inv;
      if id !in fundingLimbo {
        return UnknownId;
      }
      if !fundingLimbo[id].funded || check.FundingShort? {
        panicked := true;
        return Panicked;
      }
      if check.FundingBad? {
        return BadSignature;
      }
      if !fundingLimbo[id].committed {
        panicked := true;
        return Panicked;
      }
      if check.CommitBad? {
        return BadSignature;
      }
      completed := completed[id := fundingLimbo[id]];
      fundingLimbo := fundingLimbo - {id};
      return Completed;
    }
  }
}
