/**
 Exactly when an operation of the accounts manager keeps every account with its keystore file: for its
 success, and for every way it can fail halfway (accounts-management/persistence_operations.go:17-612).
 */
module AccountsCoverage {
  import opened Wrappers
  import opened AccountsStore
  import opened AccountsRuns

  predicate Creates(op: Op) { op.CreateFromMnemonic? || op.CreateFromPrivateKey? }

  /** The accounts a creation saves. */
  function CreatedDetails(op: Op): seq<Details>
    requires Creates(op)
  {
    if op.CreateFromMnemonic? then MnemonicDetails(op.u, op.walletPath, op.profile) else PrivateKeyDetails(op.u)
  }

  /** An address the creation gives to the new keypair: no watch-only row sits there. */
  predicate BecomesOwn(s: Store, a: Address) { a in s.accounts ==> s.accounts[a].keyUID.Some? }

  /** The keycard uid is filed under another key uid, and the keypair's files are deleted all the same. */
  predicate Collides(s: Store, kc: KeycardUID, u: KeyUID, withPassword: bool) {
    KeypairLive(s, u) && MovesToKeycard(s, u, withPassword) && !KeycardUidFree(s, kc, u)
  }

  /** The states from which some failure of the operation loses coverage. */
  ghost predicate MayLose(s: Store, exempt: set<KeyUID>, op: Op) {
    match op
    case DeleteAccount(a) => NeedsFile(s, exempt, a) && !s.accounts[a].chat && !s.accounts[a].wallet
    case DeleteKeypair(u) =>
      u in s.keypairs && s.keypairs[u].kind != Profile && exists a :: NeedsFile(s, exempt, a) && Owned(s, u, a)
    case AddAccounts(u, ds) =>
      && KeypairLive(s, u) && s.keypairs[u].kind != PrivateKey && !HasKeycard(s, u)
      && AddChecked(s, u, ds) && SaveAccounts(s, ds).Some?
      && exists a :: a in Addresses(ds) && a !in s.files && NeedsFile(UpsertAll(s, ds), exempt, a)
    case CreateFromMnemonic(u, _, _) =>
      && !KeypairLive(s, u) && u !in exempt && !HasKeycard(s, u)
      && exists a :: a in Addresses(CreatedDetails(op)) && a !in s.files && BecomesOwn(s, a)
    case CreateFromPrivateKey(u) =>
      && !KeypairLive(s, u) && u !in exempt && !HasKeycard(s, u)
      && exists a :: a in Addresses(CreatedDetails(op)) && a !in s.files && BecomesOwn(s, a)
    case SaveKeycard(kc, u, withPassword) =>
      Collides(s, kc, u, withPassword) && exists a :: NeedsFile(s, exempt, a) && Owned(s, u, a)
    case _ => false
  }

  // ---------------------------------------------------------------------------
  // Deletions: files go first
  // ---------------------------------------------------------------------------

  /** A failed DeleteAccount keeps coverage exactly when the account did not need its file or still has it. */
  lemma FailedDeleteAccountExact(s: Store, exempt: set<KeyUID>, a: Address, s': Store)
    requires Wf(s) && Coverage(s, exempt) && DeleteAccountStep(s, a, false, s')
    ensures Coverage(s', exempt) <==> (NeedsFile(s, exempt, a) ==> a in s'.files)
  {
    assert forall b :: NeedsFile(s', exempt, b) <==> NeedsFile(s, exempt, b);
    if s' != s {
      forall b | NeedsFile(s, exempt, b) && b != a ensures b in s'.files {
        if b in AccountFiles(s, a) { AccountFilesOwned(s, a, b); }
      }
    }
  }

  /** A failed DeleteKeypair keeps coverage exactly when every file the keypair needs is still there. */
  lemma FailedDeleteKeypairExact(s: Store, exempt: set<KeyUID>, u: KeyUID, s': Store)
    requires Wf(s) && Coverage(s, exempt) && DeleteKeypairStep(s, u, false, s')
    ensures Coverage(s', exempt) <==> forall a :: NeedsFile(s, exempt, a) && Owned(s, u, a) ==> a in s'.files
  {
    assert forall b :: NeedsFile(s', exempt, b) <==> NeedsFile(s, exempt, b);
    if s' != s {
      forall b | NeedsFile(s, exempt, b) && !Owned(s, u, b) ensures b in s'.files {
        if b in DeletedKeypairFiles(s, u) { KeypairFilesOwned(s, u, b); }
      }
    }
  }

  /** A failed SaveKeycard keeps coverage exactly when the uid does not collide or every file the keypair needs is still there. */
  lemma FailedSaveKeycardExact(s: Store, exempt: set<KeyUID>, op: Op, s': Store)
    requires op.SaveKeycard? && Wf(s) && Coverage(s, exempt) && Step(s, op, false, s')
    ensures Coverage(s', exempt) <==>
              || !Collides(s, op.kc, op.u, op.withPassword)
              || forall a :: NeedsFile(s, exempt, a) && Owned(s, op.u, a) ==> a in s'.files
  {
    if Collides(s, op.kc, op.u, op.withPassword) {
      assert forall b :: NeedsFile(s', exempt, b) <==> NeedsFile(s, exempt, b);
      forall b | NeedsFile(s, exempt, b) && !Owned(s, op.u, b) ensures b in s'.files {
        if b in KeypairFiles(s, op.u) { KeypairFilesOwned(s, op.u, b); }
      }
    } else {
      SafeSaveKeycard(s, exempt, op, s');
    }
  }

  lemma SafeSaveKeycard(s: Store, exempt: set<KeyUID>, op: Op, s': Store)
    requires op.SaveKeycard? && Wf(s) && Coverage(s, exempt) && Step(s, op, false, s')
    requires !Collides(s, op.kc, op.u, op.withPassword)
    ensures Coverage(s', exempt)
  {
    if KeycardUidFree(s, op.kc, op.u) { SaveKeycardKeepsCoverage(s, exempt, op, false, s'); }
  }

  // ---------------------------------------------------------------------------
  // Savings: rows go first
  // ---------------------------------------------------------------------------

  /** Rows t saved over s with some of their files stored: only the added accounts can lack a file. */
  lemma SavedExact(s: Store, t: Store, added: set<Address>, exempt: set<KeyUID>, s': Store)
    requires Coverage(s, exempt) && s'.(files := {}) == t.(files := {}) && s.files <= s'.files
    requires forall a :: NeedsFile(t, exempt, a) && a !in added ==> NeedsFile(s, exempt, a)
    ensures Coverage(s', exempt) <==> forall a :: a in added && NeedsFile(t, exempt, a) ==> a in s'.files
  {
    assert forall a :: NeedsFile(s', exempt, a) <==> NeedsFile(t, exempt, a);
  }

  /** A failed AddAccounts keeps coverage exactly when it saved nothing or every added account that needs a file has it. */
  lemma FailedAddAccountsExact(s: Store, exempt: set<KeyUID>, u: KeyUID, ds: seq<Details>, s': Store)
    requires Coverage(s, exempt) && AddAccountsStep(s, u, ds, false, s')
    ensures Coverage(s', exempt) <==>
              s' == s || forall a :: a in Addresses(ds) && NeedsFile(UpsertAll(s, ds), exempt, a) ==> a in s'.files
  {
    if s' != s {
      UpsertAllFacts(s, ds);
      SavedExact(s, UpsertAll(s, ds), Addresses(ds), exempt, s');
    }
  }

  lemma {:induction false} UpsertAllFlags(s: Store, ds: seq<Details>)
    requires forall i | 0 <= i < |ds| :: ds[i].row.operable == FullyOperable && !ds[i].row.removed
    ensures forall a | a in Addresses(ds) :: AccountLive(UpsertAll(s, ds), a) && UpsertAll(s, ds).accounts[a].operable == FullyOperable
  {
    if ds != [] {
      var init, last := ds[..|ds| - 1], ds[|ds| - 1];
      UpsertAllFlags(s, init);
      forall a | a in Addresses(ds) ensures a in Addresses(init) || a == last.address {
        var i :| 0 <= i < |ds| && ds[i].address == a;
        if i < |init| { assert init[i] == ds[i]; }
      }
    }
  }

  predicate Operable(ds: seq<Details>) {
    forall i | 0 <= i < |ds| :: ds[i].row.operable == FullyOperable && !ds[i].row.removed
  }

  /** Upserting operable accounts of a live keypair: those not there before become its own. */
  lemma AddedNeeds(mid: Store, exempt: set<KeyUID>, u: KeyUID, ds: seq<Details>, a: Address)
    requires DetailsDerived(u, ds) && Operable(ds) && KeypairLive(mid, u) && a in Addresses(ds)
    requires a in mid.accounts ==> mid.accounts[a].keyUID.None?
    ensures NeedsFile(UpsertAll(mid, ds), exempt, a) <==> u !in exempt && !HasKeycard(mid, u) && a !in mid.accounts
  {
    UpsertAllFacts(mid, ds);
    UpsertAllFlags(mid, ds);
  }

  /** A keypair saved anew keeps no row of its own; a watch-only row at one of its addresses stays. */
  lemma SavedRows(s: Store, u: KeyUID, kind: KeypairKind, derivedFrom: Address, a: Address)
    requires Wf(s) && !KeypairLive(s, u) && a.Derived? && a.owner == u
    ensures var mid := KeypairSaved(s, u, kind, derivedFrom);
            && KeypairLive(mid, u) && (HasKeycard(mid, u) <==> HasKeycard(s, u))
            && (a in mid.accounts ==> mid.accounts[a].keyUID.None?) && (a !in mid.accounts <==> BecomesOwn(s, a))
  {
    assert WfAccount(s, a);
  }

  lemma OthersNeed(s: Store, exempt: set<KeyUID>, u: KeyUID, kind: KeypairKind, derivedFrom: Address, ds: seq<Details>, a: Address)
    requires Wf(s) && !KeypairLive(s, u) && a !in Addresses(ds)
    requires NeedsFile(UpsertAll(KeypairSaved(s, u, kind, derivedFrom), ds), exempt, a)
    ensures NeedsFile(s, exempt, a)
  {
    UpsertAllFacts(KeypairSaved(s, u, kind, derivedFrom), ds);
    SavedKeypairIsNew(s, u, kind, derivedFrom, a);
  }

  lemma SavesWhenDerived(s: Store, u: KeyUID, kind: KeypairKind, derivedFrom: Address, ds: seq<Details>)
    requires ds != [] && DetailsDerived(u, ds)
    ensures SaveKeypair(s, u, kind, derivedFrom, ds) == Some(UpsertAll(KeypairSaved(s, u, kind, derivedFrom), ds))
  {
  }

  lemma CreatedAreOperable(op: Op)
    requires Creates(op)
    ensures CreatedDetails(op) != [] && DetailsDerived(op.u, CreatedDetails(op)) && Operable(CreatedDetails(op))
  {
  }

  function CreatedKind(op: Op): KeypairKind
    requires Creates(op)
  {
    if op.CreateFromMnemonic? then MnemonicKind(op.profile) else PrivateKey
  }

  function CreatedFrom(op: Op): Address
    requires Creates(op)
  {
    if op.CreateFromMnemonic? then Master(op.u) else NoAddress
  }

  /** The rows a creation saves, and which of them need a file, in terms of the state before. */
  lemma CreatedRows(s: Store, exempt: set<KeyUID>, op: Op, ds: seq<Details>)
    requires Creates(op) && Wf(s) && !KeypairLive(s, op.u) && ds == CreatedDetails(op)
    ensures SaveCreated(s, op).Some?
    ensures var t := SaveCreated(s, op).value;
            && t.files == s.files
            && (forall a | a in Addresses(ds) ::
                  NeedsFile(t, exempt, a) <==> op.u !in exempt && !HasKeycard(s, op.u) && BecomesOwn(s, a))
            && (forall a | NeedsFile(t, exempt, a) :: a in Addresses(ds) || NeedsFile(s, exempt, a))
  {
    CreatedAreOperable(op);
    RowsOfCreation(s, exempt, op, CreatedKind(op), CreatedFrom(op), ds);
    SavesWhenDerived(s, op.u, CreatedKind(op), CreatedFrom(op), ds);
  }

  lemma RowsOfCreation(s: Store, exempt: set<KeyUID>, op: Op, kind: KeypairKind, derivedFrom: Address, ds: seq<Details>)
    requires Creates(op) && Wf(s) && !KeypairLive(s, op.u) && DetailsDerived(op.u, ds) && Operable(ds)
    ensures var t := UpsertAll(KeypairSaved(s, op.u, kind, derivedFrom), ds);
            && t.files == s.files
            && (forall a | a in Addresses(ds) ::
                  NeedsFile(t, exempt, a) <==> op.u !in exempt && !HasKeycard(s, op.u) && BecomesOwn(s, a))
            && (forall a | NeedsFile(t, exempt, a) :: a in Addresses(ds) || NeedsFile(s, exempt, a))
  {
    var mid := KeypairSaved(s, op.u, kind, derivedFrom);
    var t := UpsertAll(mid, ds);
    UpsertAllFacts(mid, ds);
    forall a | a in Addresses(ds)
      ensures NeedsFile(t, exempt, a) <==> op.u !in exempt && !HasKeycard(s, op.u) && BecomesOwn(s, a)
    {
      SavedRows(s, op.u, kind, derivedFrom, a);
      AddedNeeds(mid, exempt, op.u, ds, a);
    }
    forall a | NeedsFile(t, exempt, a) && a !in Addresses(ds) ensures NeedsFile(s, exempt, a) {
      OthersNeed(s, exempt, op.u, kind, derivedFrom, ds, a);
    }
  }

  /** A failed creation keeps coverage exactly when it saved nothing, or every account it made its own has its file. */
  lemma FailedCreationExact(s: Store, exempt: set<KeyUID>, op: Op, files: set<Address>, s': Store)
    requires Creates(op) && Wf(s) && Coverage(s, exempt) && CreateStep(s, op, files, false, s')
    ensures Coverage(s', exempt) <==>
              || s' == s || op.u in exempt || HasKeycard(s, op.u)
              || forall a :: a in Addresses(CreatedDetails(op)) && BecomesOwn(s, a) ==> a in s'.files
  {
    if s' != s {
      CreatedRows(s, exempt, op, CreatedDetails(op));
      SavedExact(s, SaveCreated(s, op).value, Addresses(CreatedDetails(op)), exempt, s');
    }
  }

  // ---------------------------------------------------------------------------
  // Which failures can lose coverage
  // ---------------------------------------------------------------------------

  /** A failed step that loses coverage. */
  ghost predicate Loses(s: Store, exempt: set<KeyUID>, op: Op, s': Store) {
    Step(s, op, false, s') && !Coverage(s', exempt)
  }

  lemma DeletionMayLose(s: Store, exempt: set<KeyUID>, op: Op) returns (s': Store)
    requires op.DeleteAccount? || op.DeleteKeypair? || op.SaveKeycard?
    requires Wf(s) && Coverage(s, exempt) && MayLose(s, exempt, op)
    ensures Loses(s, exempt, op, s')
  {
    if op.DeleteAccount? {
      s' := s.(files := s.files - AccountFiles(s, op.a));
      FailedDeleteAccountExact(s, exempt, op.a, s');
    } else if op.SaveKeycard? {
      s' := s.(files := s.files - KeypairFiles(s, op.u));
      var a :| NeedsFile(s, exempt, a) && Owned(s, op.u, a);
      assert a in LiveAccounts(s, op.u);
      FailedSaveKeycardExact(s, exempt, op, s');
    } else {
      s' := s.(files := s.files - DeletedKeypairFiles(s, op.u));
      var a :| NeedsFile(s, exempt, a) && Owned(s, op.u, a);
      assert a in LiveAccounts(s, op.u);
      FailedDeleteKeypairExact(s, exempt, op.u, s');
    }
  }

  lemma AddingMayLose(s: Store, exempt: set<KeyUID>, u: KeyUID, ds: seq<Details>) returns (s': Store)
    requires Coverage(s, exempt) && MayLose(s, exempt, AddAccounts(u, ds))
    ensures Loses(s, exempt, AddAccounts(u, ds), s')
  {
    s' := UpsertAll(s, ds);
    UpsertAllFacts(s, ds);
    FailedAddAccountsExact(s, exempt, u, ds, s');
  }

  lemma CreatingMayLose(s: Store, exempt: set<KeyUID>, op: Op, files: set<Address>) returns (s': Store)
    requires Creates(op) && Wf(s) && Coverage(s, exempt) && MayLose(s, exempt, op)
    ensures CreateStep(s, op, files, false, s') && !Coverage(s', exempt)
  {
    CreatedRows(s, exempt, op, CreatedDetails(op));
    s' := SaveCreated(s, op).value;
    FailedCreationExact(s, exempt, op, files, s');
  }

  lemma LosingStep(s: Store, exempt: set<KeyUID>, op: Op) returns (s': Store)
    requires Wf(s) && Coverage(s, exempt) && MayLose(s, exempt, op)
    ensures Loses(s, exempt, op, s')
  {
    match op
    case AddAccounts(u, ds) => s' := AddingMayLose(s, exempt, u, ds);
    case CreateFromMnemonic(u, walletPath, profile) =>
      s' := CreatingMayLose(s, exempt, op, CreatedFiles(u, walletPath, profile));
    case CreateFromPrivateKey(u) => s' := CreatingMayLose(s, exempt, op, {Master(u)});
    case _ => s' := DeletionMayLose(s, exempt, op);
  }

  /** Outside those states no failure loses coverage. */
  lemma FailureKeepsCoverage(s: Store, exempt: set<KeyUID>, op: Op, s': Store)
    requires Wf(s) && Coverage(s, exempt) && HonestDetails(s, op)
    requires Step(s, op, false, s') && !MayLose(s, exempt, op)
    ensures Coverage(s', exempt)
  {
    match op
    case DeleteAccount(a) => FailedDeleteAccountExact(s, exempt, a, s');
    case DeleteKeypair(u) => FailedDeleteKeypairExact(s, exempt, u, s');
    case AddAccounts(u, ds) => FailedAddingKeeps(s, exempt, u, ds, s');
    case CreateFromMnemonic(u, walletPath, profile) =>
      FailedCreationExact(s, exempt, op, CreatedFiles(u, walletPath, profile), s');
    case CreateFromPrivateKey(u) => FailedCreationExact(s, exempt, op, {Master(u)}, s');
    case SaveKeycard(kc, u, withPassword) => FailedSaveKeycardExact(s, exempt, op, s');
    case MakePrivateKeyOperable(u) => CoverageCarriesOver(s, exempt, s', exempt);
    case _ => StepKeepsCoverage(s, exempt, op, false, s');
  }

  lemma FailedAddingKeeps(s: Store, exempt: set<KeyUID>, u: KeyUID, ds: seq<Details>, s': Store)
    requires Wf(s) && Coverage(s, exempt) && HonestDetails(s, AddAccounts(u, ds))
    requires AddAccountsStep(s, u, ds, false, s') && !MayLose(s, exempt, AddAccounts(u, ds))
    ensures Coverage(s', exempt)
  {
    FailedAddAccountsExact(s, exempt, u, ds, s');
    if s' != s && HasKeycard(s, u) {
      UpsertAllFacts(s, ds);
      UpsertKeepsWf(s, u, ds);
      forall a | a in Addresses(ds) ensures !NeedsFile(UpsertAll(s, ds), exempt, a) {
        assert WfAccount(UpsertAll(s, ds), a);
      }
    }
  }

  /**
   For every operation and every covered state: some failure halfway leaves an account without its file
   if and only if `MayLose` holds of the state before.
   */
  lemma FailureLosesExactly(s: Store, exempt: set<KeyUID>, op: Op)
    requires Wf(s) && Coverage(s, exempt) && HonestDetails(s, op)
    ensures (exists s' :: Loses(s, exempt, op, s')) <==> MayLose(s, exempt, op)
  {
    if MayLose(s, exempt, op) {
      var s' := LosingStep(s, exempt, op);
    } else {
      forall s' | Step(s, op, false, s') ensures Coverage(s', exempt) {
        FailureKeepsCoverage(s, exempt, op, s');
      }
    }
  }

  // ---------------------------------------------------------------------------
  // Which successes lose coverage
  // ---------------------------------------------------------------------------

  /** The keypair is on a keycard afterwards, or every account that then needs its file still has it. */
  ghost predicate KeycardCovers(s: Store, op: Op)
    requires op.SaveKeycard?
  {
    || HasKeycard(s, op.u) || KeycardUidFree(s, op.kc, op.u)
    || if op.withPassword then KeypairLive(s, op.u) && LiveAccounts(s, op.u) <= s.files - KeypairFiles(s, op.u)
       else KeypairCovered(s, op.u)
  }

  /** The states from which a success of the operation keeps coverage. */
  ghost predicate KeepsOnSuccess(s: Store, exempt: set<KeyUID>, op: Op) {
    match op
    case SaveKeycard(_, _, _) => KeycardCovers(s, op)
    case MakePrivateKeyOperable(u) => u in exempt || MasterFileSuffices(s, u)
    case _ => true
  }

  /** Saving a keycard leaves the other keypairs covered; its own is covered exactly as `KeycardCovers` says. */
  lemma SaveKeycardExact(s: Store, exempt: set<KeyUID>, op: Op, s': Store)
    requires op.SaveKeycard? && Wf(s) && Coverage(s, exempt) && Step(s, op, true, s')
    ensures Coverage(s', exempt - {op.u}) <==> KeycardCovers(s, op)
  {
    if HasKeycard(s, op.u) {
      KeycardRowAdded(s, op.kc, op.u, op.u);
      AlreadyOnKeycard(s, exempt, op, s');
    } else if KeycardUidFree(s, op.kc, op.u) {
      SaveKeycardKeepsCoverage(s, exempt, op, true, s');
    } else if op.withPassword {
      CollidingSave(s, exempt, op, s');
    } else {
      PasswordlessSave(s, exempt, op.u);
    }
  }

  lemma AlreadyOnKeycard(s: Store, exempt: set<KeyUID>, op: Op, s': Store)
    requires op.SaveKeycard? && Coverage(s, exempt) && s' == SaveKeycardRow(s, op.kc, op.u) && HasKeycard(s, op.u)
    ensures Coverage(s', exempt - {op.u})
  {
    forall a | NeedsFile(s', exempt - {op.u}, a) ensures NeedsFile(s, exempt, a) {
      KeycardRowAdded(s, op.kc, op.u, s.accounts[a].keyUID.value);
    }
    CoverageCarriesOver(s, exempt, s', exempt - {op.u});
  }

  /** Without a password a colliding save changes nothing, but it ends the keypair's exemption. */
  lemma PasswordlessSave(s: Store, exempt: set<KeyUID>, u: KeyUID)
    requires Coverage(s, exempt)
    ensures Coverage(s, exempt - {u}) <==> KeypairCovered(s, u)
  {
    assert forall a :: NeedsFile(s, {}, a) && s.accounts[a].keyUID == Some(u) ==> NeedsFile(s, exempt - {u}, a);
    assert forall a :: NeedsFile(s, exempt - {u}, a) && s.accounts[a].keyUID != Some(u) ==> NeedsFile(s, exempt, a);
  }

  lemma CollidingSave(s: Store, exempt: set<KeyUID>, op: Op, s': Store)
    requires op.SaveKeycard? && Wf(s) && Coverage(s, exempt) && Collides(s, op.kc, op.u, op.withPassword)
    requires s' == MarkKeypairOperable(s, op.u).(files := s.files - KeypairFiles(s, op.u))
    ensures Coverage(s', exempt - {op.u}) <==> LiveAccounts(s, op.u) <= s'.files
  {
    var u := op.u;
    forall a | a in LiveAccounts(s, u) ensures NeedsFile(s', exempt - {u}, a) {}
    forall a | NeedsFile(s', exempt - {u}, a) && a !in LiveAccounts(s, u) ensures a in s'.files {
      assert NeedsFile(s, exempt, a);
      if a in KeypairFiles(s, u) { KeypairFilesOwned(s, u, a); }
    }
  }

  /** Marking after storing the master key only. */
  lemma PrivateKeyOperableExact(s: Store, exempt: set<KeyUID>, u: KeyUID, s': Store)
    requires Wf(s) && Coverage(s, exempt) && Step(s, MakePrivateKeyOperable(u), true, s')
    ensures Coverage(s', exempt) <==> u in exempt || MasterFileSuffices(s, u)
  {
    if u !in exempt && MasterFileSuffices(s, u) {
      MakeKeepsCoverage(s, exempt, MakePrivateKeyOperable(u), true, s');
    } else if u in exempt {
      forall a | NeedsFile(s', exempt, a) ensures NeedsFile(s, exempt, a) {}
    } else {
      var a :| a in LiveAccounts(s, u) && a != Master(u) && a !in s.files;
      assert NeedsFile(s', exempt, a);
    }
  }

  /** For every operation: a success keeps coverage if and only if `KeepsOnSuccess` holds of the state before. */
  lemma SuccessKeepsExactly(s: Store, exempt: set<KeyUID>, op: Op, s': Store)
    requires Wf(s) && Coverage(s, exempt) && HonestDetails(s, op) && Step(s, op, true, s')
    ensures Coverage(s', NextExempt(exempt, op, true)) <==> KeepsOnSuccess(s, exempt, op)
  {
    if op.SaveKeycard? {
      SaveKeycardExact(s, exempt, op, s');
    } else if op.MakePrivateKeyOperable? {
      PrivateKeyOperableExact(s, exempt, op.u, s');
    } else {
      StepKeepsCoverage(s, exempt, op, true, s');
    }
  }
}
