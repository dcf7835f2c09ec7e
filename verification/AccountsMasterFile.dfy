/**
 The profile's master key file: exactly which operations can take it, and that nothing else does
 (accounts-management/persistence_operations.go:391-612, keystore_operations.go:153-295).
 */
module AccountsMasterFile {
  import opened Wrappers
  import opened AccountsStore
  import opened AccountsRuns
  import opened AccountsCoverage
  import opened AccountsTheorems

  /** Deleting an account of the profile takes the master file exactly when it is the account at the master address. */
  lemma DeletionTakesMasterExactly(s: Store, a: Address, u: KeyUID, c: Address, w: Address)
    requires Wf(s) && ProfileRows(s, u, c, w) && !HasKeycard(s, u)
    requires AccountLive(s, a) && !s.accounts[a].chat && !s.accounts[a].wallet
    ensures Master(u) in AccountFiles(s, a) <==>
              a == Master(u) && s.accounts[a].keyUID.Some? && s.accounts[a].operable == FullyOperable
  {
    DeleteAccountSparesProfile(s, a, u, c, w);
    assert WfAccount(s, a);
    if s.accounts[a].keyUID.Some? { assert WfKeypair(s, s.accounts[a].keyUID.value); }
  }

  /** The three operations that take the master file: two act on an account row at the master address, one on a keycard uid. */
  predicate TakesMaster(s: Store, op: Op, u: KeyUID) {
    || (op == DeleteAccount(Master(u)) && Owned(s, u, Master(u)) && s.accounts[Master(u)].operable == FullyOperable)
    || (op.CleanFiles? && Owned(s, u, Master(u)) && s.accounts[Master(u)].removed)
    || (op.SaveKeycard? && op.u == u && Collides(s, op.kc, u, op.withPassword) && Master(u) in KeypairFiles(s, u))
  }

  lemma CleanTakesMasterExactly(s: Store, u: KeyUID)
    requires Wf(s) && KeypairLive(s, u) && !HasKeycard(s, u)
    ensures Master(u) in Garbage(s, s.keypairs.Keys) <==> TakesMaster(s, CleanFiles, u)
  {
    assert WfAccount(s, Master(u));
    forall v | v in s.keypairs
      ensures Master(u) in KeypairGarbage(s, v) <==> v == u && TakesMaster(s, CleanFiles, u)
    {
      assert WfKeypair(s, v);
    }
    if TakesMaster(s, CleanFiles, u) { assert Master(u) in KeypairGarbage(s, u); }
  }

  /** Deleting the files of another keypair. */
  lemma OthersSpareMaster(s: Store, v: KeyUID, u: KeyUID)
    requires Wf(s) && v in s.keypairs && v != u
    ensures Master(u) !in KeypairFiles(s, v)
  {
    assert WfKeypair(s, v) && WfAccount(s, Master(u));
  }

  lemma KeycardTakesMasterExactly(s: Store, op: Op, ok: bool, s': Store, u: KeyUID)
    requires op.SaveKeycard? && Wf(s) && !HasKeycard(s, u)
    requires Step(s, op, ok, s') && !HasKeycard(s', u) && Master(u) in s.files
    ensures Master(u) !in s'.files ==> TakesMaster(s, op, u)
    ensures ok && TakesMaster(s, op, u) ==> Master(u) !in s'.files
  {
    if ok || s' != s {
      if op.u == u {
        KeycardRowAdded(s, op.kc, u, u);
        if op.kc in s.keycards { assert s.keycards[op.kc] in s.keycards.Values; }
      } else {
        OthersSpareMaster(s, op.u, u);
      }
    }
  }

  predicate Deletes(op: Op) { op.SaveKeycard? || op.DeleteAccount? || op.DeleteKeypair? || op.CleanFiles? }

  lemma FilesGrow(s: Store, op: Op, ok: bool, s': Store)
    requires Step(s, op, ok, s') && !Deletes(op)
    ensures s.files <= s'.files
  {
    if op.AddStoredToKeycard? { UpsertAllFacts(KeypairSaved(s, op.u, Seed, op.master), op.details); }
  }

  /** A step off keycards loses the master file only as `TakesMaster` says, and does so whenever that succeeds. */
  lemma MasterLostExactly(s: Store, op: Op, ok: bool, s': Store, u: KeyUID, c: Address, w: Address)
    requires Wf(s) && ProfileRows(s, u, c, w) && Step(s, op, ok, s') && GoodOp(s, op)
    requires !HasKeycard(s', u) && Master(u) in s.files
    ensures Master(u) !in s'.files ==> TakesMaster(s, op, u)
    ensures ok && TakesMaster(s, op, u) ==> Master(u) !in s'.files
  {
    StepCarriesProfile(s, op, ok, s', u, c, w);
    match op
    case SaveKeycard(_, _, _) => KeycardTakesMasterExactly(s, op, ok, s', u);
    case DeleteAccount(a) => if ok || s' != s { DeletionTakesMasterExactly(s, a, u, c, w); assert WfAccount(s, a); }
    case DeleteKeypair(v) => if ok || s' != s { OthersSpareMaster(s, v, u); }
    case CleanFiles => CleanTakesMasterExactly(s, u);
    case _ => FilesGrow(s, op, ok, s');
  }

  /** A step puts a row at the master address only by adding that account to the profile. */
  lemma MasterRowAdded(s: Store, op: Op, ok: bool, s': Store, u: KeyUID)
    requires Wf(s) && KeypairLive(s, u) && Step(s, op, ok, s') && HonestDetails(s, op)
    requires Master(u) !in s.accounts && Master(u) in s'.accounts
    ensures op.AddAccounts? && op.u == u && Master(u) in Addresses(op.details)
  {
    match op
    case AddAccounts(v, ds) => AddedRow(s, v, ds, u);
    case AddStoredToKeycard(v, master, ds) => SavedRow(s, v, Seed, master, ds, u);
    case CreateFromMnemonic(v, walletPath, profile) =>
      SavedRow(s, v, MnemonicKind(profile), Master(v), MnemonicDetails(v, walletPath, profile), u);
    case CreateFromPrivateKey(v) => SavedRow(s, v, PrivateKey, NoAddress, PrivateKeyDetails(v), u);
    case _ =>
  }

  lemma SavedRow(s: Store, v: KeyUID, kind: KeypairKind, derivedFrom: Address, ds: seq<Details>, u: KeyUID)
    requires v != u && DetailsDerived(v, ds)
    ensures Master(u) in UpsertAll(KeypairSaved(s, v, kind, derivedFrom), ds).accounts ==> Master(u) in s.accounts
  {
    UpsertAllFacts(KeypairSaved(s, v, kind, derivedFrom), ds);
  }

  lemma AddedRow(s: Store, v: KeyUID, ds: seq<Details>, u: KeyUID)
    requires Wf(s) && v in s.keypairs && (AddChecked(s, v, ds) || DetailsDerived(v, ds))
    requires Master(u) !in s.accounts && Master(u) in UpsertAll(s, ds).accounts
    ensures v == u && Master(u) in Addresses(ds)
  {
    UpsertAllFacts(s, ds);
    AddedDetailsDerived(s, v, ds);
  }

  /** Over every run the master file stays until the profile is on a keycard or an operation takes it as above. */
  lemma {:induction false} RunKeepsMaster(states: seq<Store>, events: seq<Event>, n: nat, u: KeyUID, c: Address, w: Address)
    requires Run(states, events) && n <= |events|
    requires forall i | 0 <= i < |events| :: GoodOp(states[i], events[i].op) && !TakesMaster(states[i], events[i].op, u)
    requires Wf(states[0]) && ProfileRows(states[0], u, c, w) && (HasKeycard(states[0], u) || Master(u) in states[0].files)
    ensures Wf(states[n]) && ProfileRows(states[n], u, c, w) && (HasKeycard(states[n], u) || Master(u) in states[n].files)
  {
    if n > 0 {
      RunKeepsMaster(states, events, n - 1, u, c, w);
      var s, e := states[n - 1], events[n - 1];
      StepKeepsWf(s, e.op, e.ok, states[n]);
      StepCarriesProfile(s, e.op, e.ok, states[n], u, c, w);
      if !HasKeycard(states[n], u) { MasterLostExactly(s, e.op, e.ok, states[n], u, c, w); }
    }
  }

  /** No account is added at the master address, and no keycard uid of another keypair is saved for the profile. */
  ghost predicate MasterLeftAlone(s: Store, op: Op, u: KeyUID) {
    && (op.AddAccounts? && op.u == u ==> Master(u) !in Addresses(op.details))
    && (op.SaveKeycard? && op.u == u ==> !Collides(s, op.kc, u, op.withPassword))
  }

  /** So it stays in every such run. */
  lemma {:induction false} MasterLeftAloneStays(states: seq<Store>, events: seq<Event>, n: nat, u: KeyUID, c: Address, w: Address)
    requires Run(states, events) && n <= |events|
    requires forall i | 0 <= i < |events| :: GoodOp(states[i], events[i].op) && MasterLeftAlone(states[i], events[i].op, u)
    requires Wf(states[0]) && ProfileRows(states[0], u, c, w) && Master(u) !in states[0].accounts
    requires HasKeycard(states[0], u) || Master(u) in states[0].files
    ensures Wf(states[n]) && ProfileRows(states[n], u, c, w) && Master(u) !in states[n].accounts
    ensures HasKeycard(states[n], u) || Master(u) in states[n].files
  {
    if n > 0 {
      MasterLeftAloneStays(states, events, n - 1, u, c, w);
      var s, e := states[n - 1], events[n - 1];
      StepKeepsWf(s, e.op, e.ok, states[n]);
      StepCarriesProfile(s, e.op, e.ok, states[n], u, c, w);
      if Master(u) in states[n].accounts { MasterRowAdded(s, e.op, e.ok, states[n], u); }
      if !HasKeycard(states[n], u) { MasterLostExactly(s, e.op, e.ok, states[n], u, c, w); }
    }
  }

  /** An account at the master address of the profile. */
  function MasterAccount(u: KeyUID): Details {
    Details(Master(u), Account(Some(u), PATH_MASTER, false, false, FullyOperable, false))
  }

  lemma AddingMaster(s: Store, u: KeyUID, mid: Store)
    requires Master(u) !in s.accounts && mid == s.(accounts := s.accounts[Master(u) := MasterAccount(u).row])
    requires KeypairLive(s, u) && s.keypairs[u].kind == Profile && !HasKeycard(s, u)
    requires s.keypairs[u].derivedFrom == Master(u) && Master(u) in s.files
    ensures Step(s, AddAccounts(u, [MasterAccount(u)]), true, mid)
  {
    var ds := [MasterAccount(u)];
    assert ds[..0] == [];
    assert UpsertAll(s, ds) == UpsertAccount(UpsertAll(s, []), ds[0]) == mid;
    assert ChildFiles(Master(u), ds) == {Master(u)} by {
      assert Child(Master(u), ds[0].row.path) == Master(u);
    }
    assert s.files + {Master(u)} == s.files;
  }

  /** From every safe state off keycards: adding an account at the master address and deleting it again takes the master file. */
  lemma MasterAccountLosesMaster(s: Store, u: KeyUID, c: Address, w: Address) returns (mid: Store, s': Store)
    requires Wf(s) && ProfileSafe(s, u, c, w) && !HasKeycard(s, u)
    requires s.keypairs[u].derivedFrom == Master(u) && Master(u) in s.files && Master(u) !in s.accounts
    ensures Step(s, AddAccounts(u, [MasterAccount(u)]), true, mid) && Step(mid, DeleteAccount(Master(u)), true, s')
    ensures GoodOp(s, AddAccounts(u, [MasterAccount(u)])) && ProfileSafe(s', u, c, w) && Master(u) !in s'.files
  {
    mid := s.(accounts := s.accounts[Master(u) := MasterAccount(u).row]);
    AddingMaster(s, u, mid);
    var add, delete := AddAccounts(u, [MasterAccount(u)]), DeleteAccount(Master(u));
    StepKeepsWf(s, add, true, mid);
    StepKeepsProfile(s, add, true, mid, u, c, w);
    DeletionTakesMasterExactly(mid, Master(u), u, c, w);
    s' := RemoveAccount(mid, Master(u)).(files := mid.files - AccountFiles(mid, Master(u)));
    StepKeepsProfile(mid, delete, true, s', u, c, w);
  }
}
