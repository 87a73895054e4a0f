/**
 * Trading accounts and their default flag. The table lists accounts in creation order; requests are
 * handled one after the other.
 */
module Accounts {
  import opened Wrappers

  datatype AccountType = Live | Demo

  datatype Status = Active | Suspended | Closed

  datatype Account = Account(
    id: string,
    userId: string,
    accountType: AccountType,
    accountNo: string,
    status: Status,
    isDefault: bool,
    balance: int)

  datatype Error = NotFound | NotActive | NotDemo | PositionsOpen | NoFreeNumber

  /** 10 000 USDT in units of the eighth decimal. */
  const DEMO_STARTING_BALANCE: int := 10_000 * 100_000_000

  type Table = seq<Account>

  function FindFirst(t: Table, p: Account -> bool, from: nat): (r: Option<nat>)
    requires from <= |t|
    ensures r.Some? ==> from <= r.value < |t| && p(t[r.value])
    ensures r.Some? ==> forall i :: from <= i < r.value ==> !p(t[i])
    ensures r.None? ==> forall i :: from <= i < |t| ==> !p(t[i])
    decreases |t| - from
  {
    if from == |t| then None
    else if p(t[from]) then Some(from)
    else FindFirst(t, p, from + 1)
  }

  predicate Open(a: Account, user: string) {
    a.userId == user && a.status != Closed
  }

  function OwnedBy(user: string, id: string): Account -> bool {
    (a: Account) => a.userId == user && a.id == id
  }

  function OpenFor(user: string): Account -> bool {
    (a: Account) => Open(a, user)
  }

  function OpenDefaultFor(user: string): Account -> bool {
    (a: Account) => Open(a, user) && a.isDefault
  }

  function OtherActive(user: string, id: string): Account -> bool {
    (a: Account) => a.userId == user && a.id != id && a.status == Active
  }

  function Numbered(no: string): Account -> bool {
    (a: Account) => a.accountNo == no
  }

  /** The first of ten random candidates that no account carries yet. */
  function FreeNumber(t: Table, candidates: seq<string>): (r: Option<string>)
    ensures r.Some? ==> forall i :: 0 <= i < |t| ==> t[i].accountNo != r.value
  {
    if candidates == [] then None
    else if FindFirst(t, Numbered(candidates[0]), 0).None? then Some(candidates[0])
    else FreeNumber(t, candidates[1..])
  }

  // ---- the operations ----

  function CreateAccount(t: Table, user: string, accountType: AccountType, id: string, candidates: seq<string>)
    : Result<Table, Error>
  {
    match FreeNumber(t, candidates)
    case None => Err(NoFreeNumber)
    case Some(no) =>
      var balance := if accountType.Demo? then DEMO_STARTING_BALANCE else 0;
      Ok(t + [Account(id, user, accountType, no, Active, FindFirst(t, OpenFor(user), 0).None?, balance)])
  }

  function ClearDefaults(t: Table, user: string): (r: Table)
    ensures |r| == |t|
    ensures forall i :: 0 <= i < |t| ==> r[i] == if t[i].userId == user then t[i].(isDefault := false) else t[i]
  {
    seq(|t|, i requires 0 <= i < |t| => if t[i].userId == user then t[i].(isDefault := false) else t[i])
  }

  function SetDefault(t: Table, user: string, id: string): Result<Table, Error> {
    match FindFirst(t, OwnedBy(user, id), 0)
    case None => Err(NotFound)
    case Some(k) =>
      if t[k].status != Active then Err(NotActive)
      else Ok(ClearDefaults(t, user)[k := t[k].(isDefault := true)])
  }

  /** The open positions are closed first, by the positions service; that step is not part of this model. */
  function ResetDemo(t: Table, user: string, id: string): Result<Table, Error> {
    match FindFirst(t, OwnedBy(user, id), 0)
    case None => Err(NotFound)
    case Some(k) =>
      if !t[k].accountType.Demo? then Err(NotDemo) else Ok(t[k := t[k].(balance := DEMO_STARTING_BALANCE)])
  }

  function CloseAccount(t: Table, user: string, id: string, openPositions: nat): Result<Table, Error> {
    match FindFirst(t, OwnedBy(user, id), 0)
    case None => Err(NotFound)
    case Some(k) =>
      if t[k].status == Closed then Ok(t)
      else if openPositions > 0 then Err(PositionsOpen)
      else
        var fallback := if t[k].isDefault then FindFirst(t, OtherActive(user, id), 0) else None;
        var closed := t[k := t[k].(status := Closed, isDefault := false)];
        match fallback
        case None => Ok(closed)
        case Some(f) => Ok(closed[f := closed[f].(isDefault := true)])
  }

  /** The default account, promoting the oldest open one when none is marked. */
  function DefaultAccount(t: Table, user: string): Result<(Table, nat), Error> {
    match FindFirst(t, OpenDefaultFor(user), 0)
    case Some(k) => Ok((t, k))
    case None =>
      match FindFirst(t, OpenFor(user), 0)
      case None => Err(NotFound)
      case Some(k) => Ok((t[k := t[k].(isDefault := true)], k))
  }

  /** The administrator suspends or reactivates every open account of a user. */
  function SetUserStatus(t: Table, user: string, suspend: bool): (r: Table)
    ensures |r| == |t|
    ensures forall i :: 0 <= i < |t| ==>
              r[i] == if Open(t[i], user) then t[i].(status := if suspend then Suspended else Active) else t[i]
  {
    seq(|t|, i requires 0 <= i < |t| =>
      if Open(t[i], user) then t[i].(status := if suspend then Suspended else Active) else t[i])
  }

  datatype Op =
    | Create(user: string, accountType: AccountType, id: string, candidates: seq<string>)
    | MakeDefault(user: string, id: string)
    | Reset(user: string, id: string)
    | Close(user: string, id: string, openPositions: nat)
    | Lookup(user: string)
    | SetStatus(user: string, suspend: bool)

  function OrElse(r: Result<Table, Error>, t: Table): Table {
    if r.Ok? then r.value else t
  }

  /** The table after a request; a refused request changes nothing. */
  function Apply(t: Table, op: Op): Table {
    match op
    case Create(user, accountType, id, candidates) => OrElse(CreateAccount(t, user, accountType, id, candidates), t)
    case MakeDefault(user, id) => OrElse(SetDefault(t, user, id), t)
    case Reset(user, id) => OrElse(ResetDemo(t, user, id), t)
    case Close(user, id, openPositions) => OrElse(CloseAccount(t, user, id, openPositions), t)
    case Lookup(user) => var r := DefaultAccount(t, user); if r.Ok? then r.value.0 else t
    case SetStatus(user, suspend) => SetUserStatus(t, user, suspend)
  }

  // ---- invariants ----

  predicate DistinctIds(t: Table) {
    forall i, j :: 0 <= i < j < |t| ==> t[i].id != t[j].id && t[i].accountNo != t[j].accountNo
  }

  /** At most one account per user is the default. */
  predicate OneDefault(t: Table) {
    forall i, j :: 0 <= i < j < |t| && t[i].isDefault && t[j].isDefault ==> t[i].userId != t[j].userId
  }

  predicate DefaultsOpen(t: Table) {
    forall i :: 0 <= i < |t| && t[i].isDefault ==> t[i].status != Closed
  }

  predicate Inv(t: Table) {
    DistinctIds(t) && OneDefault(t) && DefaultsOpen(t)
  }

  /** New accounts get new ids. */
  predicate Possible(t: Table, op: Op) {
    op.Create? ==> forall i :: 0 <= i < |t| ==> t[i].id != op.id
  }

  lemma CreateKeepsInv(t: Table, user: string, accountType: AccountType, id: string, candidates: seq<string>)
    requires Inv(t) && forall i :: 0 <= i < |t| ==> t[i].id != id
    ensures Inv(OrElse(CreateAccount(t, user, accountType, id, candidates), t))
  {
    var open := OpenFor(user);
    assert forall i :: 0 <= i < |t| && t[i].userId == user && t[i].isDefault ==> open(t[i]);
  }

  lemma SetDefaultKeepsInv(t: Table, user: string, id: string)
    requires Inv(t)
    ensures Inv(OrElse(SetDefault(t, user, id), t))
  {
  }

  lemma CloseKeepsInv(t: Table, user: string, id: string, openPositions: nat)
    requires Inv(t)
    ensures Inv(OrElse(CloseAccount(t, user, id, openPositions), t))
  {
  }

  lemma LookupKeepsInv(t: Table, user: string)
    requires Inv(t)
    ensures DefaultAccount(t, user).Ok? ==> Inv(DefaultAccount(t, user).value.0)
  {
    var default := OpenDefaultFor(user);
    assert FindFirst(t, default, 0).None? ==> forall i :: 0 <= i < |t| && t[i].userId == user ==> !t[i].isDefault by {
      assert forall i :: 0 <= i < |t| && t[i].userId == user && t[i].isDefault ==> default(t[i]);
    }
  }

  lemma ApplyKeepsInv(t: Table, op: Op)
    requires Inv(t) && Possible(t, op)
    ensures Inv(Apply(t, op))
  {
    match op
    case Create(user, accountType, id, candidates) => CreateKeepsInv(t, user, accountType, id, candidates);
    case MakeDefault(user, id) => SetDefaultKeepsInv(t, user, id);
    case Reset(user, id) =>
    case Close(user, id, openPositions) => CloseKeepsInv(t, user, id, openPositions);
    case Lookup(user) => LookupKeepsInv(t, user);
    case SetStatus(user, suspend) =>
  }

  /** Rows are never removed or reordered, keep their owner, and stay closed once closed. */
  predicate Extends(t: Table, t': Table) {
    && |t| <= |t'|
    && forall i :: 0 <= i < |t| ==>
         && t'[i].id == t[i].id && t'[i].userId == t[i].userId
         && (t[i].status == Closed ==> t'[i].status == Closed)
  }

  lemma ApplyExtends(t: Table, op: Op)
    requires Inv(t)
    ensures Extends(t, Apply(t, op))
    ensures forall i :: 0 <= i < |t| && t[i].userId != op.user ==> Apply(t, op)[i] == t[i]
  {
    if op.Close? {
      var other := OtherActive(op.user, op.id);
    }
  }

  lemma ExtendsTransitive(a: Table, b: Table, c: Table)
    requires Extends(a, b) && Extends(b, c)
    ensures Extends(a, c)
  {
  }

  // ---- runs ----

  ghost predicate Run(states: seq<Table>, ops: seq<Op>) {
    && |states| == |ops| + 1
    && states[0] == []
    && forall i :: 0 <= i < |ops| ==> Possible(states[i], ops[i]) && states[i + 1] == Apply(states[i], ops[i])
  }

  /** In every sequential run at most one account per user is the default and none of the defaults is closed. */
  lemma {:induction false} RunKeepsInv(states: seq<Table>, ops: seq<Op>, i: nat)
    requires Run(states, ops) && i < |states|
    ensures Inv(states[i])
  {
    if i > 0 {
      RunKeepsInv(states, ops, i - 1);
      ApplyKeepsInv(states[i - 1], ops[i - 1]);
    }
  }

  lemma RunStepExtends(states: seq<Table>, ops: seq<Op>, j: nat)
    requires Run(states, ops) && j < |ops|
    ensures Extends(states[j], states[j + 1])
  {
    RunKeepsInv(states, ops, j);
    ApplyExtends(states[j], ops[j]);
  }

  lemma {:induction false} ExtendsChain(states: seq<Table>, i: nat, j: nat)
    requires i <= j < |states|
    requires forall k :: i <= k < j ==> Extends(states[k], states[k + 1])
    ensures Extends(states[i], states[j])
  {
    if i < j {
      ExtendsChain(states, i, j - 1);
      assert Extends(states[j - 1], states[j - 1 + 1]);
      ExtendsTransitive(states[i], states[j - 1], states[j]);
    }
  }

  /** A closed account stays closed, in its place and with its owner, for the rest of every run. */
  lemma ClosedForGood(states: seq<Table>, ops: seq<Op>, i: nat, j: nat)
    requires Run(states, ops) && i <= j < |states|
    ensures Extends(states[i], states[j])
  {
    forall k | i <= k < j ensures Extends(states[k], states[k + 1]) {
      RunStepExtends(states, ops, k);
    }
    ExtendsChain(states, i, j);
  }

  // ---- looking up the default ----

  ghost predicate HasOpen(t: Table, user: string) {
    exists i :: 0 <= i < |t| && Open(t[i], user)
  }

  ghost predicate HasDefault(t: Table, user: string) {
    exists i :: 0 <= i < |t| && t[i].userId == user && t[i].isDefault
  }

  /** Account `k` is the user's one default, and it is open. */
  predicate OnlyDefault(t: Table, user: string, k: nat) {
    k < |t| && Open(t[k], user) && t[k].isDefault
    && forall i :: 0 <= i < |t| && t[i].userId == user && t[i].isDefault ==> i == k
  }

  /**
   * Lookup succeeds exactly when the user has an open account, and then leaves that user exactly one
   * default: the account returned.
   */
  lemma LookupSpec(t: Table, user: string)
    requires Inv(t)
    ensures DefaultAccount(t, user).Ok? <==> HasOpen(t, user)
    ensures DefaultAccount(t, user).Ok? || DefaultAccount(t, user) == Err(NotFound)
    ensures DefaultAccount(t, user).Ok? ==>
              var (t', k) := DefaultAccount(t, user).value;
              OnlyDefault(t', user, k) && DefaultAccount(t', user) == Ok((t', k))
  {
    var open, default := OpenFor(user), OpenDefaultFor(user);
    if i :| 0 <= i < |t| && Open(t[i], user) {
      assert open(t[i]);
    }
    if DefaultAccount(t, user).Ok? {
      LookupKeepsInv(t, user);
      var (t', k) := DefaultAccount(t, user).value;
      assert default(t'[k]);
      var again := FindFirst(t', default, 0).value;
      assert again == k;
    }
  }

  /**
   * Lookup changes one flag at most: a user's marked account is returned as it is; otherwise the user's
   * oldest open account is marked.
   */
  lemma LookupChanges(t: Table, user: string)
    requires Inv(t) && DefaultAccount(t, user).Ok?
    ensures var (t', k) := DefaultAccount(t, user).value;
            && k < |t| && OnlyFlagsDiffer(t, t')
            && (forall i :: 0 <= i < |t| && i != k ==> t'[i] == t[i])
            && (HasDefault(t, user) ==> t' == t)
            && (!HasDefault(t, user) ==> forall i :: 0 <= i < k ==> !Open(t[i], user))
  {
    var open, default := OpenFor(user), OpenDefaultFor(user);
    if i :| 0 <= i < |t| && t[i].userId == user && t[i].isDefault {
      assert default(t[i]);
    }
    var k := DefaultAccount(t, user).value.1;
    if !HasDefault(t, user) {
      assert forall i :: 0 <= i < k ==> !open(t[i]);
    }
  }

  // ---- what the other requests achieve ----

  ghost predicate Owns(t: Table, user: string, id: string, k: nat) {
    k < |t| && t[k].userId == user && t[k].id == id
  }

  lemma OwnedIsFound(t: Table, user: string, id: string)
    requires DistinctIds(t)
    ensures forall k: nat :: Owns(t, user, id, k) <==> FindFirst(t, OwnedBy(user, id), 0) == Some(k)
  {
    var owned := OwnedBy(user, id);
    assert forall k: nat :: k < |t| ==> (owned(t[k]) <==> Owns(t, user, id, k));
  }

  ghost predicate Taken(t: Table, no: string) {
    exists i :: 0 <= i < |t| && t[i].accountNo == no
  }

  /** The first candidate that no account carries. */
  ghost predicate FirstFree(t: Table, candidates: seq<string>, no: string) {
    exists i :: 0 <= i < |candidates| && candidates[i] == no && !Taken(t, no)
                && forall j :: 0 <= j < i ==> Taken(t, candidates[j])
  }

  /**
   * Creation fails exactly when every candidate is taken, for want of a number. Otherwise one row is
   * added: active, the user's default exactly when no other one is open, and with money only as a demo.
   */
  lemma CreateSpec(t: Table, user: string, accountType: AccountType, id: string, candidates: seq<string>)
    ensures var r := CreateAccount(t, user, accountType, id, candidates);
            && (r.Err? <==> forall c :: c in candidates ==> Taken(t, c))
            && (r.Err? ==> r.error == NoFreeNumber)
            && (r.Ok? ==>
                  && |r.value| == |t| + 1 && r.value[..|t|] == t
                  && var a := r.value[|t|];
                     && a.id == id && a.userId == user && a.accountType == accountType && a.status == Active
                     && FirstFree(t, candidates, a.accountNo)
                     && (a.isDefault <==> !HasOpen(t, user))
                     && a.balance == (if accountType == Demo then 10_000 * 100_000_000 else 0))
  {
    FreeNumberSpec(t, candidates);
    var open := OpenFor(user);
    assert forall i :: 0 <= i < |t| ==> (open(t[i]) <==> Open(t[i], user));
  }

  /** Drawing stops at the first free candidate, and fails exactly when there is none. */
  lemma {:induction false} FreeNumberSpec(t: Table, candidates: seq<string>)
    ensures FreeNumber(t, candidates).None? <==> forall c :: c in candidates ==> Taken(t, c)
    ensures FreeNumber(t, candidates).Some? ==> FirstFree(t, candidates, FreeNumber(t, candidates).value)
  {
    if candidates != [] {
      var first, rest := candidates[0], candidates[1..];
      FreeNumberSpec(t, rest);
      var numbered := Numbered(first);
      assert forall i :: 0 <= i < |t| ==> (numbered(t[i]) <==> t[i].accountNo == first);
      assert FindFirst(t, numbered, 0).None? <==> !Taken(t, first);
      assert forall c :: c in candidates <==> c == first || c in rest;
      FirstFreeLater(t, first, rest);
    }
  }

  lemma FirstFreeLater(t: Table, first: string, rest: seq<string>)
    ensures !Taken(t, first) ==> FirstFree(t, [first] + rest, first)
    ensures Taken(t, first) ==> forall no :: FirstFree(t, rest, no) ==> FirstFree(t, [first] + rest, no)
  {
    var all := [first] + rest;
    if !Taken(t, first) {
      assert all[0] == first;
    } else {
      forall no | FirstFree(t, rest, no) ensures FirstFree(t, all, no) {
        var i :| 0 <= i < |rest| && rest[i] == no && !Taken(t, no) && forall j :: 0 <= j < i ==> Taken(t, rest[j]);
        assert all[i + 1] == no;
        forall j | 0 <= j < i + 1 ensures Taken(t, all[j]) {
          assert j > 0 ==> all[j] == rest[j - 1];
        }
      }
    }
  }

  /** Nothing but default flags differs. */
  predicate OnlyFlagsDiffer(t: Table, t': Table) {
    |t'| == |t| && forall i :: 0 <= i < |t| ==> t'[i].(isDefault := t[i].isDefault) == t[i]
  }

  /**
   * Setting the default succeeds exactly for the user's active accounts; a missing account and an
   * inactive one are told apart. It makes that account the user's only default and changes nothing else.
   */
  lemma SetDefaultSpec(t: Table, user: string, id: string)
    requires Inv(t)
    ensures var r := SetDefault(t, user, id);
            && (r.Ok? <==> exists k: nat :: Owns(t, user, id, k) && t[k].status == Active)
            && (r == Err(NotFound) <==> !exists k: nat :: Owns(t, user, id, k))
            && (r.Ok? || r == Err(NotFound) || r == Err(NotActive))
            && (r.Ok? ==>
                  && OnlyFlagsDiffer(t, r.value)
                  && (forall i :: 0 <= i < |t| && t[i].userId != user ==> r.value[i] == t[i])
                  && forall k: nat :: Owns(t, user, id, k) ==> OnlyDefault(r.value, user, k))
  {
    OwnedIsFound(t, user, id);
  }

  /** Resetting succeeds exactly for the user's demo accounts, and changes that balance alone. */
  lemma ResetSpec(t: Table, user: string, id: string)
    requires Inv(t)
    ensures var r := ResetDemo(t, user, id);
            && (r.Ok? <==> exists k: nat :: Owns(t, user, id, k) && t[k].accountType.Demo?)
            && (r == Err(NotFound) <==> !exists k: nat :: Owns(t, user, id, k))
            && (r.Ok? || r == Err(NotFound) || r == Err(NotDemo))
            && (r.Ok? ==>
                  && |r.value| == |t|
                  && forall i: nat :: i < |t| ==>
                       r.value[i] == if Owns(t, user, id, i) then t[i].(balance := 10_000 * 100_000_000) else t[i])
  {
    OwnedIsFound(t, user, id);
  }

  /** `k` is the user's oldest active account other than `id`. */
  ghost predicate OldestOtherActive(t: Table, user: string, id: string, k: nat) {
    && k < |t| && t[k].userId == user && t[k].id != id && t[k].status == Active
    && forall i :: 0 <= i < k && t[i].userId == user && t[i].id != id ==> t[i].status != Active
  }

  /**
   * Closing succeeds exactly for the user's accounts that are closed already, which changes nothing, or
   * hold no position; a missing account and an occupied one are told apart. Nothing changes but flags and
   * the account's own status. A default account hands the flag to the user's oldest other active account;
   * any other account leaves the flags alone.
   */
  lemma CloseSpec(t: Table, user: string, id: string, openPositions: nat)
    requires Inv(t)
    ensures var r := CloseAccount(t, user, id, openPositions);
            && (r.Ok? <==> exists k: nat :: Owns(t, user, id, k) && (t[k].status == Closed || openPositions == 0))
            && (r == Err(NotFound) <==> !exists k: nat :: Owns(t, user, id, k))
            && (r.Ok? || r == Err(NotFound) || r == Err(PositionsOpen))
            && (r.Ok? ==> forall k: nat :: Owns(t, user, id, k) ==> ClosedAt(t, r.value, user, id, k))
  {
    OwnedIsFound(t, user, id);
    var found := FindFirst(t, OwnedBy(user, id), 0);
    if found.Some? && t[found.value].status != Closed && openPositions == 0 {
      ClosedRow(t, user, id, openPositions, found.value);
    }
  }

  /** What closing account `k` leaves. */
  ghost predicate ClosedAt(t: Table, t': Table, user: string, id: string, k: nat)
    requires k < |t|
  {
    && |t'| == |t|
    && t'[k].status == Closed && !t'[k].isDefault
    && (t[k].status == Closed ==> t' == t)
    && OnlyFlagsDiffer(t[k := t[k].(status := Closed)], t')
    && (!t[k].isDefault ==> forall i :: 0 <= i < |t| ==> t'[i].isDefault == t[i].isDefault)
    && (t[k].isDefault ==> forall j: nat :: OldestOtherActive(t, user, id, j) ==> OnlyDefault(t', user, j))
  }

  lemma ClosedRow(t: Table, user: string, id: string, openPositions: nat, k: nat)
    requires Inv(t) && FindFirst(t, OwnedBy(user, id), 0) == Some(k) && openPositions == 0 && t[k].status != Closed
    ensures ClosedAt(t, CloseAccount(t, user, id, openPositions).value, user, id, k)
  {
    if t[k].isDefault {
      HandedOn(t, user, id, openPositions, k);
      var other := OtherActive(user, id);
      var fallback := FindFirst(t, other, 0);
      assert fallback.Some? ==> fallback.value != k;
    }
  }

  lemma HandedOn(t: Table, user: string, id: string, openPositions: nat, k: nat)
    requires Inv(t) && FindFirst(t, OwnedBy(user, id), 0) == Some(k) && t[k].isDefault && openPositions == 0
    ensures var t' := CloseAccount(t, user, id, openPositions).value;
            forall j: nat :: OldestOtherActive(t, user, id, j) ==> OnlyDefault(t', user, j)
  {
    var other := OtherActive(user, id);
    forall j: nat | OldestOtherActive(t, user, id, j)
      ensures OnlyDefault(CloseAccount(t, user, id, openPositions).value, user, j)
    {
      assert other(t[j]);
      assert forall i :: 0 <= i < j ==> !other(t[i]);
      assert FindFirst(t, other, 0) == Some(j);
      assert forall i :: 0 <= i < |t| && t[i].userId == user && t[i].isDefault ==> i == k;
    }
  }

  predicate NoneSuspendedOf(t: Table, user: string) {
    forall i :: 0 <= i < |t| && t[i].userId == user ==> t[i].status != Suspended
  }

  /**
   * Exactly the user's open accounts take the status, and nothing else about any account changes: the
   * default stays where it is. Of several changes the last one counts, so suspending and reactivating
   * gives the table back exactly when none of the user's accounts was suspended before.
   */
  lemma StatusSpec(t: Table, user: string, suspend: bool)
    ensures var t' := SetUserStatus(t, user, suspend);
            && |t'| == |t|
            && (forall i :: 0 <= i < |t| ==>
                  && t'[i].(status := t[i].status) == t[i]
                  && (Open(t[i], user) ==> t'[i].status == if suspend then Suspended else Active)
                  && (!Open(t[i], user) ==> t'[i] == t[i]))
            && FindFirst(t', OpenDefaultFor(user), 0) == FindFirst(t, OpenDefaultFor(user), 0)
    ensures SetUserStatus(SetUserStatus(t, user, true), user, false) == t <==> NoneSuspendedOf(t, user)
  {
    var t', default := SetUserStatus(t, user, suspend), OpenDefaultFor(user);
    assert forall i :: 0 <= i < |t| ==> (default(t'[i]) <==> default(t[i]));
    SameFirst(t', t, default, 0);
    var again := SetUserStatus(SetUserStatus(t, user, true), user, false);
    forall i | 0 <= i < |t| ensures again[i] == t[i] <==> !Open(t[i], user) || t[i].status == Active {
      assert again[i] == if Open(t[i], user) then t[i].(status := Active) else t[i];
    }
    assert again == t <==> forall i :: 0 <= i < |t| ==> again[i] == t[i];
  }

  lemma {:induction false} SameFirst(t: Table, t': Table, p: Account -> bool, from: nat)
    requires |t| == |t'| && from <= |t| && forall i :: 0 <= i < |t| ==> (p(t[i]) <==> p(t'[i]))
    ensures FindFirst(t, p, from) == FindFirst(t', p, from)
    decreases |t| - from
  {
    if from < |t| { SameFirst(t, t', p, from + 1); }
  }

  // ---- when a user with open accounts has no default ----

  ghost predicate DefaultWhenOpen(t: Table, user: string) {
    HasOpen(t, user) ==> HasDefault(t, user)
  }

  /**
   * The request closes the user's default account while no other account of theirs is active but some
   * other one is still open, that is, suspended.
   */
  ghost predicate Strands(t: Table, op: Op, user: string) {
    && op.Close? && op.user == user && op.openPositions == 0
    && (exists k :: 0 <= k < |t| && t[k].userId == user && t[k].id == op.id && t[k].isDefault)
    && (exists i :: 0 <= i < |t| && Open(t[i], user) && t[i].id != op.id)
    && (forall i :: 0 <= i < |t| && t[i].userId == user && t[i].id != op.id ==> t[i].status != Active)
  }

  lemma DefaultKept(t: Table, t': Table, user: string)
    requires DefaultWhenOpen(t, user) && |t| <= |t'|
    requires forall i :: 0 <= i < |t| && t[i].userId == user ==>
               t'[i].userId == user && t'[i].isDefault == t[i].isDefault
    requires forall i :: 0 <= i < |t'| && Open(t'[i], user) ==> i < |t| && Open(t[i], user)
    ensures DefaultWhenOpen(t', user)
  {
    if i :| 0 <= i < |t'| && Open(t'[i], user) {
      var k :| 0 <= k < |t| && t[k].userId == user && t[k].isDefault;
      assert t'[k].isDefault;
    }
  }

  lemma CreateKeepsDefault(t: Table, user: string, accountType: AccountType, id: string, candidates: seq<string>)
    requires DefaultWhenOpen(t, user)
    ensures DefaultWhenOpen(OrElse(CreateAccount(t, user, accountType, id, candidates), t), user)
  {
    var t' := OrElse(CreateAccount(t, user, accountType, id, candidates), t);
    if t' != t {
      if t'[|t|].isDefault {
      } else {
        var i := FindFirst(t, OpenFor(user), 0).value;
        assert Open(t[i], user);
        var k :| 0 <= k < |t| && t[k].userId == user && t[k].isDefault;
        assert t'[k] == t[k];
      }
    }
  }

  lemma SetDefaultKeepsDefault(t: Table, user: string, id: string)
    requires DefaultWhenOpen(t, user)
    ensures DefaultWhenOpen(OrElse(SetDefault(t, user, id), t), user)
  {
    var t' := OrElse(SetDefault(t, user, id), t);
    if SetDefault(t, user, id).Ok? {
      var k := FindFirst(t, OwnedBy(user, id), 0).value;
      assert t'[k].isDefault && t'[k].userId == user;
    }
  }

  lemma CloseStrands(t: Table, op: Op)
    requires Inv(t) && op.Close? && DefaultWhenOpen(t, op.user)
    ensures DefaultWhenOpen(Apply(t, op), op.user) <==> !Strands(t, op, op.user)
  {
    var user, id, t' := op.user, op.id, Apply(t, op);
    var owned, other := OwnedBy(user, id), OtherActive(user, id);
    var found := FindFirst(t, owned, 0);
    if k :| 0 <= k < |t| && t[k].userId == user && t[k].id == id && t[k].isDefault {
      assert owned(t[k]);
      assert found == Some(k);
    }
    if found.Some? && t[found.value].status != Closed && op.openPositions == 0 {
      CloseStrandsAt(t, op, found.value);
    }
  }

  lemma CloseStrandsAt(t: Table, op: Op, k: nat)
    requires Inv(t) && op.Close? && op.openPositions == 0 && DefaultWhenOpen(t, op.user)
    requires FindFirst(t, OwnedBy(op.user, op.id), 0) == Some(k) && t[k].status != Closed
    ensures DefaultWhenOpen(Apply(t, op), op.user) <==> !Strands(t, op, op.user)
  {
    var user, id, t' := op.user, op.id, Apply(t, op);
    var other := OtherActive(user, id);
    assert Open(t[k], user);
    if !t[k].isDefault {
      DefaultKept(t, t', user);
    } else {
      var fallback := FindFirst(t, other, 0);
      if fallback.Some? {
        assert t'[fallback.value].isDefault && t'[fallback.value].userId == user;
        assert other(t[fallback.value]);
      } else {
        assert forall i :: 0 <= i < |t| && t[i].userId == user && t[i].id != id ==> !other(t[i]);
        assert !HasDefault(t', user);
        forall i | 0 <= i < |t| ensures Open(t'[i], user) <==> Open(t[i], user) && t[i].id != id {}
      }
    }
  }

  /**
   * From a state where every user with an open account has a default, a request leaves one without
   * exactly when it closes a default account whose only open companions are suspended.
   */
  lemma DefaultLostExactly(t: Table, op: Op, user: string)
    requires Inv(t) && Possible(t, op) && DefaultWhenOpen(t, user)
    ensures DefaultWhenOpen(Apply(t, op), user) <==> !Strands(t, op, user)
  {
    var t' := Apply(t, op);
    if op.user != user {
      ApplyExtends(t, op);
      DefaultKept(t, t', user);
    } else {
      match op
      case Create(_, accountType, id, candidates) => CreateKeepsDefault(t, user, accountType, id, candidates);
      case MakeDefault(_, id) => SetDefaultKeepsDefault(t, user, id);
      case Reset(_, id) => DefaultKept(t, t', user);
      case Close(_, id, openPositions) => CloseStrands(t, op);
      case Lookup(_) =>
        LookupSpec(t, user);
        if DefaultAccount(t, user).Ok? {
          var k := DefaultAccount(t, user).value.1;
          assert t'[k].isDefault;
        }
      case SetStatus(_, suspend) => DefaultKept(t, t', user);
    }
  }

  /** Such a state is reached: create two accounts, suspend the user, close the default one. */
  lemma StrandingRun(user: string, id1: string, id2: string, no1: string, no2: string)
    returns (states: seq<Table>, ops: seq<Op>)
    requires id1 != id2 && no1 != no2
    ensures Run(states, ops) && |ops| == 4
    ensures HasOpen(states[4], user) && !HasDefault(states[4], user)
  {
    ops := [Create(user, Live, id1, [no1]), Create(user, Live, id2, [no2]), SetStatus(user, true), Close(user, id1, 0)];
    var first := Account(id1, user, Live, no1, Active, true, 0);
    var second := Account(id2, user, Live, no2, Active, false, 0);
    var t1 := Apply([], ops[0]);
    assert t1 == [first];
    var t2 := Apply(t1, ops[1]);
    assert t2 == [first, second];
    var t3 := Apply(t2, ops[2]);
    assert t3 == [first.(status := Suspended), second.(status := Suspended)];
    var t4 := Apply(t3, ops[3]);
    assert t4 == [first.(status := Closed, isDefault := false), second.(status := Suspended)];
    states := [[], t1, t2, t3, t4];
    assert Open(t4[1], user);
  }

  // ---- without suspensions ----

  predicate NoneSuspended(t: Table) {
    forall i :: 0 <= i < |t| ==> t[i].status != Suspended
  }

  lemma ApplyKeepsNoneSuspended(t: Table, op: Op)
    requires NoneSuspended(t) && !(op.SetStatus? && op.suspend)
    ensures NoneSuspended(Apply(t, op))
  {
  }

  lemma {:induction false} DefaultWhileNoneSuspended(states: seq<Table>, ops: seq<Op>, i: nat, user: string)
    requires Run(states, ops) && i < |states|
    requires forall k :: 0 <= k < |ops| ==> !(ops[k].SetStatus? && ops[k].suspend)
    ensures NoneSuspended(states[i]) && DefaultWhenOpen(states[i], user)
  {
    if i > 0 {
      DefaultWhileNoneSuspended(states, ops, i - 1, user);
      RunKeepsInv(states, ops, i - 1);
      var t, op := states[i - 1], ops[i - 1];
      ApplyKeepsNoneSuspended(t, op);
      assert !Strands(t, op, user);
      DefaultLostExactly(t, op, user);
    }
  }

  /** As long as nobody is suspended, a user has exactly one default account whenever any account is open. */
  lemma ExactlyOneDefault(states: seq<Table>, ops: seq<Op>, i: nat, user: string)
    requires Run(states, ops) && i < |states|
    requires forall k :: 0 <= k < |ops| ==> !(ops[k].SetStatus? && ops[k].suspend)
    ensures HasOpen(states[i], user) <==> exists k: nat :: OnlyDefault(states[i], user, k)
  {
    var t := states[i];
    DefaultWhileNoneSuspended(states, ops, i, user);
    RunKeepsInv(states, ops, i);
    if HasOpen(t, user) {
      var k: nat :| k < |t| && t[k].userId == user && t[k].isDefault;
      assert OnlyDefault(t, user, k);
    }
  }

  // ---- the service as an object ----

  /** The accounts table behind the service; each method is one request. */
  class AccountsService {
    var accounts: Table

    constructor ()
      ensures accounts == []
    {
      accounts := [];
    }

    /** `generateAccountNo`: up to ten draws. */
    method GenerateAccountNo(candidates: seq<string>) returns (no: Option<string>)
      ensures no == FreeNumber(accounts, candidates)
    {
      for i := 0 to |candidates|
        invariant FreeNumber(accounts, candidates) == FreeNumber(accounts, candidates[i..])
      {
        var existing := FindFirst(accounts, Numbered(candidates[i]), 0);
        if existing.None? {
          return Some(candidates[i]);
        }
      }
      no := None;
    }

    method Create(user: string, accountType: AccountType, id: string, candidates: seq<string>)
      returns (r: Result<nat, Error>)
      modifies this
      ensures accounts == OrElse(CreateAccount(old(accounts), user, accountType, id, candidates), old(accounts))
      ensures accounts == Apply(old(accounts), Op.Create(user, accountType, id, candidates))
      ensures r.Ok? ==> r.value == |old(accounts)| && |accounts| == |old(accounts)| + 1
      ensures r.Err? <==> CreateAccount(old(accounts), user, accountType, id, candidates).Err?
    {
      var firstOpen := FindFirst(accounts, OpenFor(user), 0);
      var balance := if accountType.Demo? then DEMO_STARTING_BALANCE else 0;
      var no := GenerateAccountNo(candidates);
      if no.None? {
        return Err(NoFreeNumber);
      }
      accounts := accounts + [Account(id, user, accountType, no.value, Active, firstOpen.None?, balance)];
      r := Ok(|accounts| - 1);
    }

    method SetDefaultAccount(user: string, id: string) returns (error: Option<Error>)
      modifies this
      ensures accounts == OrElse(SetDefault(old(accounts), user, id), old(accounts))
      ensures accounts == Apply(old(accounts), MakeDefault(user, id))
      ensures error == match SetDefault(old(accounts), user, id) case Err(e) => Some(e) case Ok(_) => None
    {
      var k := FindFirst(accounts, OwnedBy(user, id), 0);
      if k.None? {
        return Some(NotFound);
      }
      if accounts[k.value].status != Active {
        return Some(NotActive);
      }
      var account := accounts[k.value];
      accounts := ClearDefaults(accounts, user);
      accounts := accounts[k.value := account.(isDefault := true)];
      error := None;
    }

    method Close(user: string, id: string, openPositions: nat) returns (error: Option<Error>)
      modifies this
      ensures accounts == OrElse(CloseAccount(old(accounts), user, id, openPositions), old(accounts))
      ensures accounts == Apply(old(accounts), Op.Close(user, id, openPositions))
      ensures error == match CloseAccount(old(accounts), user, id, openPositions)
                       case Err(e) => Some(e)
                       case Ok(_) => None
    {
      var k := FindFirst(accounts, OwnedBy(user, id), 0);
      if k.None? {
        return Some(NotFound);
      }
      var account := accounts[k.value];
      if account.status == Closed {
        return None;
      }
      if openPositions > 0 {
        return Some(PositionsOpen);
      }
      var fallback := None;
      if account.isDefault {
        fallback := FindFirst(accounts, OtherActive(user, id), 0);
      }
      accounts := accounts[k.value := account.(status := Closed, isDefault := false)];
      if fallback.Some? {
        accounts := accounts[fallback.value := accounts[fallback.value].(isDefault := true)];
      }
      error := None;
    }

    method ResetDemoBalance(user: string, id: string) returns (error: Option<Error>)
      modifies this
      ensures accounts == OrElse(ResetDemo(old(accounts), user, id), old(accounts))
      ensures accounts == Apply(old(accounts), Reset(user, id))
      ensures error == match ResetDemo(old(accounts), user, id) case Err(e) => Some(e) case Ok(_) => None
    {
      var k := FindFirst(accounts, OwnedBy(user, id), 0);
      if k.None? {
        return Some(NotFound);
      }
      if !accounts[k.value].accountType.Demo? {
        return Some(NotDemo);
      }
      accounts := accounts[k.value := accounts[k.value].(balance := DEMO_STARTING_BALANCE)];
      error := None;
    }

    method GetDefaultAccount(user: string) returns (r: Result<Account, Error>)
      modifies this
      ensures match DefaultAccount(old(accounts), user)
              case Err(e) => r == Err(e) && accounts == old(accounts)
              case Ok((t, k)) => accounts == t && r == Ok(t[k])
      ensures accounts == Apply(old(accounts), Lookup(user))
      ensures Inv(old(accounts)) ==> (r.Ok? <==> HasOpen(old(accounts), user))
      ensures r.Ok? ==> r.value in accounts && Open(r.value, user) && r.value.isDefault
    {
      ghost var before := accounts;
      var marked := FindFirst(accounts, OpenDefaultFor(user), 0);
      if marked.Some? {
        r := Ok(accounts[marked.value]);
      } else {
        var fallback := FindFirst(accounts, OpenFor(user), 0);
        if fallback.None? {
          r := Err(NotFound);
        } else {
          accounts := accounts[fallback.value := accounts[fallback.value].(isDefault := true)];
          r := Ok(accounts[fallback.value]);
        }
      }
      if Inv(before) {
        LookupSpec(before, user);
      }
    }

    /** The administrator's `updateMany` over a user's open accounts. */
    method SetUserAccountStatus(user: string, suspend: bool)
      modifies this
      ensures accounts == Apply(old(accounts), SetStatus(user, suspend))
      ensures |accounts| == |old(accounts)|
      ensures forall i :: 0 <= i < |accounts| ==>
                accounts[i].isDefault == old(accounts)[i].isDefault
                && (accounts[i].status != old(accounts)[i].status ==> Open(old(accounts)[i], user))
                && (Open(old(accounts)[i], user) ==> (accounts[i].status == Suspended <==> suspend))
    {
      accounts := SetUserStatus(accounts, user, suspend);
    }
  }
}
