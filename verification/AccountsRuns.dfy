/**
 What every run of accounts-manager operations keeps.

 `Step` describes one operation on the two stores: what it leaves behind when it succeeds, and every
 state it can leave behind when a database or keystore call fails on the way.  The methods of
 `AccountsManager` are proved to take only such steps; the lemmas here are about all of them.
 */
module AccountsRuns {
  import opened Wrappers
  import opened AccountsStore

  datatype Op =
    | CreateFromMnemonic(u: KeyUID, walletPath: Path, profile: bool)
    | AddStoredToKeycard(u: KeyUID, master: Address, details: seq<Details>)
    | CreateFromPrivateKey(u: KeyUID)
    | MakeSeedOperable(u: KeyUID)
    | MakePrivateKeyOperable(u: KeyUID)
    | MakePartiallyOperable
    | AddAccounts(u: KeyUID, details: seq<Details>)
    | MigrateToApp(u: KeyUID)
    | SaveKeycard(kc: KeycardUID, u: KeyUID, withPassword: bool)
    | DeleteAccount(a: Address)
    | DeleteKeypair(u: KeyUID)
    | CleanFiles

  // ---------------------------------------------------------------------------
  // One step
  // ---------------------------------------------------------------------------

  function MnemonicDetails(u: KeyUID, walletPath: Path, profile: bool): seq<Details> {
    (if profile
     then [Details(Derived(u, PATH_CHAT), Account(Some(u), PATH_CHAT, false, true, FullyOperable, false))]
     else []) +
    [Details(Derived(u, walletPath), Account(Some(u), walletPath, profile, false, FullyOperable, false))]
  }

  function MnemonicKind(profile: bool): KeypairKind {
    if profile then Profile else Seed
  }

  function CreatedFiles(u: KeyUID, walletPath: Path, profile: bool): set<Address> {
    {Master(u), Derived(u, walletPath)} + (if profile then {Derived(u, PATH_CHAT)} else {})
  }

  function PrivateKeyDetails(u: KeyUID): seq<Details> {
    [Details(Master(u), Account(Some(u), PATH_MASTER, false, false, FullyOperable, false))]
  }

  ghost predicate FilesBetween(low: set<Address>, s: Store, high: set<Address>) {
    low <= s.files <= high
  }

  /** The database of `t` with files somewhere between `low` and `high`. */
  ghost predicate Stopped(s': Store, t: Store, low: set<Address>, high: set<Address>) {
    s'.(files := {}) == t.(files := {}) && FilesBetween(low, s', high)
  }

  /** The checks AddAccounts makes for a keypair that is not on a keycard. */
  predicate AddChecked(s: Store, u: KeyUID, ds: seq<Details>)
    requires u in s.keypairs
  {
    forall i | 0 <= i < |ds| ::
      && ds[i].row.keyUID == Some(u)
      && (s.keypairs[u].kind == Profile ==> !ds[i].row.chat && !ds[i].row.wallet)
      && ds[i].address !in LiveAccounts(s, u)
      && s.keypairs[u].derivedFrom in s.files
      && Child(s.keypairs[u].derivedFrom, ds[i].row.path) == ds[i].address
  }

  function SaveCreated(s: Store, op: Op): Option<Store>
    requires op.CreateFromMnemonic? || op.CreateFromPrivateKey?
  {
    if op.CreateFromMnemonic?
    then SaveKeypair(s, op.u, MnemonicKind(op.profile), Master(op.u), MnemonicDetails(op.u, op.walletPath, op.profile))
    else SaveKeypair(s, op.u, PrivateKey, NoAddress, PrivateKeyDetails(op.u))
  }

  ghost predicate CreateStep(s: Store, op: Op, files: set<Address>, ok: bool, s': Store)
    requires op.CreateFromMnemonic? || op.CreateFromPrivateKey?
  {
    if !ok && s' == s then true
    else
      var saved := SaveCreated(s, op);
      && !KeypairLive(s, op.u)
      && saved.Some?
      && (if ok then s' == saved.value.(files := s.files + files)
          else Stopped(s', saved.value, s.files, s.files + files))
  }

  ghost predicate MakeStep(s: Store, u: KeyUID, files: set<Address>, ok: bool, s': Store) {
    if ok then KeypairLive(s, u) && s' == MarkKeypairOperable(s, u).(files := s.files + files)
    else Stopped(s', s, s.files, s.files + files)
  }

  ghost predicate PartialStep(s: Store, ok: bool, s': Store) {
    && s'.keypairs == s.keypairs && s'.keycards == s.keycards
    && s'.accounts.Keys == s.accounts.Keys
    && FilesBetween(s.files, s', s.files + PartialFiles(s))
    && (NoAddress in s'.files ==> NoAddress in s.files)
    && (forall a | a in s.accounts ::
          || s'.accounts[a] == s.accounts[a]
          || (Partial(s, a) && PartialFile(s, a) in s'.files &&
              s'.accounts[a] == s.accounts[a].(operable := FullyOperable)))
    && (ok ==> s'.accounts == MarkAccounts(s, Partials(s)).accounts && PartialFiles(s) <= s'.files)
  }

  ghost predicate AddAccountsStep(s: Store, u: KeyUID, ds: seq<Details>, ok: bool, s': Store) {
    if !ok && s' == s then true
    else
      && KeypairLive(s, u) && s.keypairs[u].kind != PrivateKey
      && (HasKeycard(s, u) || AddChecked(s, u, ds))
      && var saved := SaveAccounts(s, ds);
      && saved.Some?
      && var files := if HasKeycard(s, u) then {} else ChildFiles(s.keypairs[u].derivedFrom, ds);
      if ok then s' == saved.value.(files := s.files + files)
      else Stopped(s', saved.value, s.files, s.files + files)
  }

  ghost predicate MigrateStep(s: Store, u: KeyUID, ok: bool, s': Store) {
    if ok then
      && KeypairLive(s, u) && s.keypairs[u].kind != Profile && HasKeycard(s, u)
      && s' == DeleteKeycards(s, u).(files := s.files + MnemonicFiles(s, u))
    else Stopped(s', s, s.files, s.files + MnemonicFiles(s, u))
  }

  /** Whether saving the keycard moves the keypair's keys out of the keystore. */
  predicate MovesToKeycard(s: Store, u: KeyUID, withPassword: bool) {
    !HasKeycard(s, u) && withPassword
  }

  ghost predicate SaveKeycardStep(s: Store, kc: KeycardUID, u: KeyUID, withPassword: bool, ok: bool, s': Store) {
    if !ok && s' == s then true
    else
      && KeypairLive(s, u)
      && var saved := SaveKeycardRow(s, kc, u);
      if !MovesToKeycard(s, u, withPassword) then s' == saved
      else if ok then s' == MarkKeypairOperable(saved, u).(files := s.files - KeypairFiles(s, u))
      else Stopped(s', saved, s.files - KeypairFiles(s, u), s.files)
  }

  ghost predicate DeleteAccountStep(s: Store, a: Address, ok: bool, s': Store) {
    if !ok && s' == s then true
    else
      && AccountLive(s, a) && !s.accounts[a].chat && !s.accounts[a].wallet
      && (if ok then s' == RemoveAccount(s, a).(files := s.files - AccountFiles(s, a))
          else Stopped(s', s, s.files - AccountFiles(s, a), s.files))
  }

  /** DeleteKeypair leaves the files of a keycard keypair alone. */
  function DeletedKeypairFiles(s: Store, u: KeyUID): set<Address>
    requires u in s.keypairs
  {
    if HasKeycard(s, u) then {} else KeypairFiles(s, u)
  }

  ghost predicate DeleteKeypairStep(s: Store, u: KeyUID, ok: bool, s': Store) {
    if !ok && s' == s then true
    else
      && KeypairLive(s, u) && s.keypairs[u].kind != Profile
      && (if ok then s' == RemoveKeypair(s, u).(files := s.files - DeletedKeypairFiles(s, u))
          else Stopped(s', s, s.files - DeletedKeypairFiles(s, u), s.files))
  }

  ghost predicate CleanStep(s: Store, ok: bool, s': Store) {
    var garbage := Garbage(s, s.keypairs.Keys);
    if ok then s' == s.(files := s.files - garbage) else Stopped(s', s, s.files - garbage, s.files)
  }

  ghost predicate Step(s: Store, op: Op, ok: bool, s': Store) {
    match op
    case CreateFromMnemonic(u, walletPath, profile) =>
      CreateStep(s, op, CreatedFiles(u, walletPath, profile), ok, s')
    case AddStoredToKeycard(u, master, ds) =>
      if ok then !KeypairLive(s, u) && ds != [] && SaveKeypair(s, u, Seed, master, ds) == Some(s') else s' == s
    case CreateFromPrivateKey(u) => CreateStep(s, op, {Master(u)}, ok, s') && (ok ==> Master(u) !in s.files)
    case MakeSeedOperable(u) => MakeStep(s, u, MnemonicFiles(s, u), ok, s')
    case MakePrivateKeyOperable(u) => MakeStep(s, u, {Master(u)}, ok, s') && (ok ==> Master(u) !in s.files)
    case MakePartiallyOperable => PartialStep(s, ok, s')
    case AddAccounts(u, ds) => AddAccountsStep(s, u, ds, ok, s')
    case MigrateToApp(u) => MigrateStep(s, u, ok, s')
    case SaveKeycard(kc, u, withPassword) => SaveKeycardStep(s, kc, u, withPassword, ok, s')
    case DeleteAccount(a) => DeleteAccountStep(s, a, ok, s')
    case DeleteKeypair(u) => DeleteKeypairStep(s, u, ok, s')
    case CleanFiles => CleanStep(s, ok, s')
  }

  // ---------------------------------------------------------------------------
  // Invariants
  // ---------------------------------------------------------------------------

  ghost predicate WfAccount(s: Store, a: Address) {
    a in s.accounts && s.accounts[a].keyUID.Some? ==>
      s.accounts[a].keyUID.value in s.keypairs && a == Derived(s.accounts[a].keyUID.value, s.accounts[a].path)
  }

  ghost predicate WfKeypair(s: Store, u: KeyUID) {
    u in s.keypairs ==> s.keypairs[u].derivedFrom in {NoAddress, Master(u)}
  }

  /** Every account sits at the address derived from its keypair; the zero address has no file. */
  ghost predicate Wf(s: Store) {
    && (forall a :: WfAccount(s, a))
    && (forall u :: WfKeypair(s, u))
    && NoAddress !in s.files
  }

  /** The account is live, fully operable, and its live keypair is neither on a keycard nor exempt. */
  ghost predicate NeedsFile(s: Store, exempt: set<KeyUID>, a: Address) {
    && AccountLive(s, a)
    && s.accounts[a].operable == FullyOperable
    && s.accounts[a].keyUID.Some?
    && var u := s.accounts[a].keyUID.value;
    KeypairLive(s, u) && !HasKeycard(s, u) && u !in exempt
  }

  ghost predicate Coverage(s: Store, exempt: set<KeyUID>) {
    forall a :: NeedsFile(s, exempt, a) ==> a in s.files
  }

  ghost predicate KeypairCovered(s: Store, u: KeyUID) {
    forall a :: NeedsFile(s, {}, a) && s.accounts[a].keyUID == Some(u) ==> a in s.files
  }

  /** The keypairs added from a keycard whose keycard row is still to come. */
  ghost function NextExempt(exempt: set<KeyUID>, op: Op, ok: bool): set<KeyUID> {
    if !ok then exempt
    else match op
      case AddStoredToKeycard(u, _, _) => exempt + {u}
      case SaveKeycard(_, u, _) => exempt - {u}
      case CreateFromMnemonic(u, _, _) => exempt - {u}
      case CreateFromPrivateKey(u) => exempt - {u}
      case MakeSeedOperable(u) => exempt - {u}
      case _ => exempt
  }

  predicate DetailsDerived(u: KeyUID, ds: seq<Details>) {
    forall i | 0 <= i < |ds| :: ds[i].row.keyUID == Some(u) && ds[i].address == Derived(u, ds[i].row.path)
  }

  /** Accounts that no code checks must really be derived from the keypair they are filed under. */
  predicate HonestDetails(s: Store, op: Op) {
    match op
    case AddStoredToKeycard(u, master, ds) => master == Master(u) && DetailsDerived(u, ds)
    case AddAccounts(u, ds) => HasKeycard(s, u) ==> DetailsDerived(u, ds)
    case _ => true
  }

  /** A keycard uid is not already filed under another key uid. */
  predicate KeycardUidFree(s: Store, kc: KeycardUID, u: KeyUID) {
    kc in s.keycards ==> s.keycards[kc] == u
  }

  /** The master key file is all that is missing for the keypair's live accounts. */
  predicate MasterFileSuffices(s: Store, u: KeyUID) {
    HasKeycard(s, u) || forall a | a in LiveAccounts(s, u) :: a == Master(u) || a in s.files
  }

  predicate Careful(s: Store, op: Op) {
    match op
    case SaveKeycard(kc, u, _) => KeycardUidFree(s, kc, u)
    case MakePrivateKeyOperable(u) => MasterFileSuffices(s, u)
    case _ => true
  }

  /** The operations that keep coverage even when they fail halfway. */
  predicate FailsSafely(op: Op) {
    || op.MakeSeedOperable? || op.MakePrivateKeyOperable? || op.MakePartiallyOperable?
    || op.MigrateToApp? || op.SaveKeycard? || op.AddStoredToKeycard? || op.CleanFiles?
  }

  // ---------------------------------------------------------------------------
  // Facts about the statements
  // ---------------------------------------------------------------------------

  function Addresses(ds: seq<Details>): set<Address> {
    set i | 0 <= i < |ds| :: ds[i].address
  }

  predicate SameIdentity(a: Account, b: Account) {
    a.keyUID == b.keyUID && a.path == b.path && a.wallet == b.wallet && a.chat == b.chat
  }

  lemma {:induction false} UpsertAllFacts(s: Store, ds: seq<Details>)
    ensures var r := UpsertAll(s, ds);
            && r.keypairs == s.keypairs && r.keycards == s.keycards && r.files == s.files
            && r.accounts.Keys == s.accounts.Keys + Addresses(ds)
            && (forall a | a in s.accounts && a !in Addresses(ds) :: r.accounts[a] == s.accounts[a])
            && (forall a | a in s.accounts :: SameIdentity(r.accounts[a], s.accounts[a]))
            && (forall a | a in r.accounts && a !in s.accounts ::
                  exists i | 0 <= i < |ds| :: ds[i].address == a && SameIdentity(r.accounts[a], ds[i].row))
  {
    if ds != [] {
      var init, d := ds[..|ds| - 1], ds[|ds| - 1];
      UpsertAllFacts(s, init);
      var m := UpsertAll(s, init);
      assert Addresses(ds) == Addresses(init) + {d.address} by {
        forall i | 0 <= i < |ds| ensures ds[i].address in Addresses(init) + {d.address} {
          if i < |init| { assert ds[i] == init[i]; }
        }
        forall i | 0 <= i < |init| ensures init[i].address in Addresses(ds) { assert init[i] == ds[i]; }
        assert d.address in Addresses(ds);
      }
      var r := UpsertAll(s, ds);
      forall a | a in r.accounts && a !in s.accounts
        ensures exists i | 0 <= i < |ds| :: ds[i].address == a && SameIdentity(r.accounts[a], ds[i].row)
      {
        if a in m.accounts {
          var i :| 0 <= i < |init| && init[i].address == a && SameIdentity(m.accounts[a], init[i].row);
          assert ds[i] == init[i];
        } else {
          assert ds[|ds| - 1] == d;
        }
      }
    }
  }

  lemma UpsertKeepsWf(s: Store, u: KeyUID, ds: seq<Details>)
    requires Wf(s) && u in s.keypairs && DetailsDerived(u, ds)
    ensures Wf(UpsertAll(s, ds))
  {
    UpsertAllFacts(s, ds);
    var r := UpsertAll(s, ds);
    forall a ensures WfAccount(r, a) {
      assert WfAccount(s, a);
      if a in r.accounts && a !in s.accounts {
        var i :| 0 <= i < |ds| && ds[i].address == a && SameIdentity(r.accounts[a], ds[i].row);
      }
    }
    forall v ensures WfKeypair(r, v) { assert WfKeypair(s, v); }
  }

  lemma KeypairSavedKeepsWf(s: Store, u: KeyUID, kind: KeypairKind, derivedFrom: Address)
    requires Wf(s) && derivedFrom in {NoAddress, Master(u)}
    ensures Wf(KeypairSaved(s, u, kind, derivedFrom))
  {
    var r := KeypairSaved(s, u, kind, derivedFrom);
    forall a ensures WfAccount(r, a) { assert WfAccount(s, a); }
    forall v ensures WfKeypair(r, v) { assert WfKeypair(s, v); }
  }

  // ---------------------------------------------------------------------------
  // Well-formedness over a step
  // ---------------------------------------------------------------------------

  lemma SavedKeypairWf(s: Store, u: KeyUID, kind: KeypairKind, derivedFrom: Address, ds: seq<Details>)
    requires Wf(s) && derivedFrom in {NoAddress, Master(u)} && DetailsDerived(u, ds)
    ensures SaveKeypair(s, u, kind, derivedFrom, ds).Some? ==> Wf(SaveKeypair(s, u, kind, derivedFrom, ds).value)
  {
    KeypairSavedKeepsWf(s, u, kind, derivedFrom);
    UpsertKeepsWf(KeypairSaved(s, u, kind, derivedFrom), u, ds);
  }

  /** Only files, operability, removal flags and keycards differ: well-formedness carries over. */
  lemma WfCarriesOver(s: Store, s': Store)
    requires Wf(s)
    requires s'.accounts.Keys == s.accounts.Keys
    requires forall a | a in s.accounts :: SameIdentity(s'.accounts[a], s.accounts[a])
    requires s'.keypairs.Keys == s.keypairs.Keys
    requires forall u | u in s.keypairs :: s'.keypairs[u].derivedFrom == s.keypairs[u].derivedFrom
    requires NoAddress !in s'.files
    ensures Wf(s')
  {
    forall a ensures WfAccount(s', a) { assert WfAccount(s, a); }
    forall u ensures WfKeypair(s', u) { assert WfKeypair(s, u); }
  }

  lemma AddedDetailsDerived(s: Store, u: KeyUID, ds: seq<Details>)
    requires Wf(s) && u in s.keypairs && (AddChecked(s, u, ds) || DetailsDerived(u, ds))
    ensures DetailsDerived(u, ds)
    ensures AddChecked(s, u, ds) && ds != [] ==>
              s.keypairs[u].derivedFrom == Master(u) && ChildFiles(Master(u), ds) == Addresses(ds)
  {
    assert WfKeypair(s, u);
    if AddChecked(s, u, ds) && ds != [] {
      assert ds[0].row.keyUID == Some(u);
      forall i | 0 <= i < |ds| ensures ds[i].address == Child(Master(u), ds[i].row.path) == Derived(u, ds[i].row.path) {}
    }
  }

  lemma FilesCarryOver(s: Store, t: Store, s': Store)
    requires Wf(t) && s'.(files := {}) == t.(files := {}) && NoAddress !in s'.files
    ensures Wf(s')
  {
    WfCarriesOver(t, s');
  }

  lemma SaveCreatedWf(s: Store, op: Op)
    requires Wf(s) && (op.CreateFromMnemonic? || op.CreateFromPrivateKey?)
    ensures SaveCreated(s, op).Some? ==> Wf(SaveCreated(s, op).value)
  {
    if op.CreateFromMnemonic? {
      var ds := MnemonicDetails(op.u, op.walletPath, op.profile);
      assert DetailsDerived(op.u, ds);
      SavedKeypairWf(s, op.u, MnemonicKind(op.profile), Master(op.u), ds);
    } else {
      SavedKeypairWf(s, op.u, PrivateKey, NoAddress, PrivateKeyDetails(op.u));
    }
  }

  lemma CreateKeepsWf(s: Store, op: Op, files: set<Address>, ok: bool, s': Store)
    requires op.CreateFromMnemonic? || op.CreateFromPrivateKey?
    requires Wf(s) && CreateStep(s, op, files, ok, s') && NoAddress !in files
    ensures Wf(s')
  {
    if ok || s' != s {
      SaveCreatedWf(s, op);
      FilesCarryOver(s, SaveCreated(s, op).value, s');
    }
  }

  lemma AddAccountsKeepsWf(s: Store, u: KeyUID, ds: seq<Details>, ok: bool, s': Store)
    requires Wf(s) && AddAccountsStep(s, u, ds, ok, s') && HonestDetails(s, AddAccounts(u, ds))
    ensures Wf(s')
  {
    if ok || s' != s {
      AddedDetailsDerived(s, u, ds);
      UpsertKeepsWf(s, u, ds);
      assert NoAddress !in Addresses(ds);
      FilesCarryOver(s, UpsertAll(s, ds), s');
    }
  }

  lemma KeycardStepsKeepWf(s: Store, op: Op, ok: bool, s': Store)
    requires op.SaveKeycard? || op.MigrateToApp?
    requires Wf(s) && Step(s, op, ok, s')
    ensures Wf(s')
  {
    WfCarriesOver(s, s');
  }

  lemma RemoveKeypairFacts(s: Store, u: KeyUID)
    requires u in s.keypairs
    ensures var t := RemoveKeypair(s, u);
            && t.accounts.Keys == s.accounts.Keys && t.keypairs.Keys == s.keypairs.Keys && t.files == s.files
            && (forall a | a in s.accounts :: SameIdentity(t.accounts[a], s.accounts[a]))
            && (forall v | v in s.keypairs :: t.keypairs[v].derivedFrom == s.keypairs[v].derivedFrom)
  {
  }

  lemma DeleteAccountKeepsWf(s: Store, a: Address, ok: bool, s': Store)
    requires Wf(s) && DeleteAccountStep(s, a, ok, s')
    ensures Wf(s')
  {
    if ok && s.accounts[a].keyUID.Some? && KeypairLive(s, s.accounts[a].keyUID.value) {
      RemoveKeypairFacts(s, s.accounts[a].keyUID.value);
    }
    WfCarriesOver(s, s');
  }

  lemma DeleteKeypairKeepsWf(s: Store, u: KeyUID, ok: bool, s': Store)
    requires Wf(s) && DeleteKeypairStep(s, u, ok, s')
    ensures Wf(s')
  {
    if ok { RemoveKeypairFacts(s, u); }
    WfCarriesOver(s, s');
  }

  lemma StepKeepsWf(s: Store, op: Op, ok: bool, s': Store)
    requires Wf(s) && Step(s, op, ok, s') && HonestDetails(s, op)
    ensures Wf(s')
  {
    match op
    case CreateFromMnemonic(u, walletPath, profile) =>
      CreateKeepsWf(s, op, CreatedFiles(u, walletPath, profile), ok, s');
    case AddStoredToKeycard(u, master, ds) => SavedKeypairWf(s, u, Seed, master, ds);
    case CreateFromPrivateKey(u) => CreateKeepsWf(s, op, {Master(u)}, ok, s');
    case MakeSeedOperable(u) => WfCarriesOver(s, s');
    case MakePrivateKeyOperable(u) => WfCarriesOver(s, s');
    case MakePartiallyOperable => WfCarriesOver(s, s');
    case AddAccounts(u, ds) => AddAccountsKeepsWf(s, u, ds, ok, s');
    case MigrateToApp(u) => KeycardStepsKeepWf(s, op, ok, s');
    case SaveKeycard(kc, u, withPassword) => KeycardStepsKeepWf(s, op, ok, s');
    case DeleteAccount(a) => DeleteAccountKeepsWf(s, a, ok, s');
    case DeleteKeypair(u) => DeleteKeypairKeepsWf(s, u, ok, s');
    case CleanFiles => WfCarriesOver(s, s');
  }

  // ---------------------------------------------------------------------------
  // Coverage over a step
  // ---------------------------------------------------------------------------

  /** Coverage survives when nothing new needs a file and no needed file goes away. */
  lemma CoverageCarriesOver(s: Store, exempt: set<KeyUID>, s': Store, exempt': set<KeyUID>)
    requires Coverage(s, exempt)
    requires forall a :: NeedsFile(s', exempt', a) ==> a in s'.files || (NeedsFile(s, exempt, a) && (a in s.files ==> a in s'.files))
    ensures Coverage(s', exempt')
  {
  }

  /** Saving a keypair that is not live starts it without accounts and leaves the other keypairs alone. */
  lemma SavedKeypairIsNew(s: Store, u: KeyUID, kind: KeypairKind, derivedFrom: Address, a: Address)
    requires Wf(s) && !KeypairLive(s, u)
    ensures !Owned(KeypairSaved(s, u, kind, derivedFrom), u, a)
    ensures a in KeypairSaved(s, u, kind, derivedFrom).accounts ==>
              a in s.accounts && KeypairSaved(s, u, kind, derivedFrom).accounts[a] == s.accounts[a]
  {
    assert WfAccount(s, a);
  }

  lemma SavedKeypairCoverage(s: Store, exempt: set<KeyUID>, u: KeyUID, kind: KeypairKind, derivedFrom: Address,
                             ds: seq<Details>, s': Store)
    requires Wf(s) && Coverage(s, exempt) && !KeypairLive(s, u)
    requires s'.(files := {}) == UpsertAll(KeypairSaved(s, u, kind, derivedFrom), ds).(files := {})
    requires DetailsDerived(u, ds) && s.files + Addresses(ds) <= s'.files
    ensures Coverage(s', exempt - {u})
  {
    var mid := KeypairSaved(s, u, kind, derivedFrom);
    UpsertAllFacts(mid, ds);
    forall a | NeedsFile(s', exempt - {u}, a)
      ensures a in s'.files || NeedsFile(s, exempt, a)
    {
      if a !in Addresses(ds) {
        SavedKeypairIsNew(s, u, kind, derivedFrom, a);
      }
    }
    CoverageCarriesOver(s, exempt, s', exempt - {u});
  }

  lemma CreateKeepsCoverage(s: Store, exempt: set<KeyUID>, op: Op, s': Store)
    requires op.CreateFromMnemonic? || op.CreateFromPrivateKey?
    requires Wf(s) && Coverage(s, exempt) && Step(s, op, true, s')
    ensures Coverage(s', exempt - {op.u})
  {
    if op.CreateFromMnemonic? {
      SavedKeypairCoverage(s, exempt, op.u, MnemonicKind(op.profile), Master(op.u),
                           MnemonicDetails(op.u, op.walletPath, op.profile), s');
    } else {
      SavedKeypairCoverage(s, exempt, op.u, PrivateKey, NoAddress, PrivateKeyDetails(op.u), s');
    }
  }

  lemma AddStoredKeepsCoverage(s: Store, exempt: set<KeyUID>, u: KeyUID, master: Address, ds: seq<Details>, s': Store)
    requires Wf(s) && Coverage(s, exempt) && DetailsDerived(u, ds)
    requires Step(s, AddStoredToKeycard(u, master, ds), true, s')
    ensures Coverage(s', exempt + {u})
  {
    var mid := KeypairSaved(s, u, Seed, master);
    UpsertAllFacts(mid, ds);
    forall a | NeedsFile(s', exempt + {u}, a)
      ensures NeedsFile(s, exempt, a) && (a in s.files ==> a in s'.files)
    {
      var v := s'.accounts[a].keyUID.value;
      assert a in mid.accounts && SameIdentity(mid.accounts[a], s'.accounts[a]);
      assert WfAccount(s, a);
      assert a == Derived(v, s.accounts[a].path);
      assert a !in Addresses(ds);
    }
    CoverageCarriesOver(s, exempt, s', exempt + {u});
  }

  lemma MakeKeepsCoverage(s: Store, exempt: set<KeyUID>, op: Op, ok: bool, s': Store)
    requires op.MakeSeedOperable? || op.MakePrivateKeyOperable?
    requires Wf(s) && Coverage(s, exempt) && Step(s, op, ok, s') && Careful(s, op)
    ensures Coverage(s', NextExempt(exempt, op, ok))
  {
    if ok {
      forall a | NeedsFile(s', NextExempt(exempt, op, ok), a)
        ensures a in s'.files || (NeedsFile(s, exempt, a) && (a in s.files ==> a in s'.files))
      {
        assert WfAccount(s, a);
        if a in LiveAccounts(s, op.u) {
          assert op.MakeSeedOperable? ==> Derived(op.u, s.accounts[a].path) in MnemonicFiles(s, op.u);
        }
      }
    }
    CoverageCarriesOver(s, exempt, s', NextExempt(exempt, op, ok));
  }

  lemma PartialKeepsCoverage(s: Store, exempt: set<KeyUID>, ok: bool, s': Store)
    requires Wf(s) && Coverage(s, exempt) && PartialStep(s, ok, s')
    ensures Coverage(s', exempt)
  {
    forall a | NeedsFile(s', exempt, a)
      ensures a in s'.files || (NeedsFile(s, exempt, a) && (a in s.files ==> a in s'.files))
    {
      if s'.accounts[a] != s.accounts[a] {
        assert WfAccount(s, a) && WfKeypair(s, s.accounts[a].keyUID.value);
      }
    }
    CoverageCarriesOver(s, exempt, s', exempt);
  }

  lemma AddAccountsKeepsCoverage(s: Store, exempt: set<KeyUID>, u: KeyUID, ds: seq<Details>, s': Store)
    requires Wf(s) && Coverage(s, exempt) && HonestDetails(s, AddAccounts(u, ds))
    requires AddAccountsStep(s, u, ds, true, s')
    ensures Coverage(s', exempt)
  {
    AddedDetailsDerived(s, u, ds);
    UpsertKeepsWf(s, u, ds);
    UpsertAllFacts(s, ds);
    forall a | a in Addresses(ds) ensures !NeedsFile(s', exempt, a) || a in s'.files {
      if HasKeycard(s, u) {
        var i :| 0 <= i < |ds| && ds[i].address == a;
        assert WfAccount(UpsertAll(s, ds), a);
      }
    }
    CoverageCarriesOver(s, exempt, s', exempt);
  }

  lemma MigrateKeepsCoverage(s: Store, exempt: set<KeyUID>, u: KeyUID, ok: bool, s': Store)
    requires Wf(s) && Coverage(s, exempt) && MigrateStep(s, u, ok, s')
    ensures Coverage(s', exempt)
  {
    if ok {
      forall a | NeedsFile(s', exempt, a) ensures a in s'.files || NeedsFile(s, exempt, a) {
        var v := s.accounts[a].keyUID.value;
        assert WfAccount(s, a);
        if v == u {
          assert a in LiveAccounts(s, u);
        } else {
          KeycardsOfOthers(s, u, v);
        }
      }
    }
    CoverageCarriesOver(s, exempt, s', exempt);
  }

  lemma KeycardsOfOthers(s: Store, u: KeyUID, v: KeyUID)
    requires u != v
    ensures HasKeycard(DeleteKeycards(s, u), v) <==> HasKeycard(s, v)
    ensures !HasKeycard(DeleteKeycards(s, u), u)
  {
    var r := DeleteKeycards(s, u);
    if HasKeycard(s, v) {
      var k :| k in s.keycards && s.keycards[k] == v;
      assert r.keycards[k] == v;
    }
  }

  lemma KeycardRowAdded(s: Store, kc: KeycardUID, u: KeyUID, v: KeyUID)
    ensures HasKeycard(s, v) ==> HasKeycard(SaveKeycardRow(s, kc, u), v)
    ensures HasKeycard(SaveKeycardRow(s, kc, u), u) <==> HasKeycard(s, u) || kc !in s.keycards
    ensures v != u ==> (HasKeycard(SaveKeycardRow(s, kc, u), v) <==> HasKeycard(s, v))
  {
    var r := SaveKeycardRow(s, kc, u);
    if HasKeycard(s, v) {
      var k :| k in s.keycards && s.keycards[k] == v;
      assert r.keycards[k] == v;
    }
    if kc !in s.keycards { assert r.keycards[kc] == u; }
    if HasKeycard(s, u) {
      var k :| k in s.keycards && s.keycards[k] == u;
      assert r.keycards[k] == u;
    }
  }

  /** Deleting the keypair's files takes no file of an account filed under another keypair. */
  lemma KeypairFilesOwned(s: Store, u: KeyUID, a: Address)
    requires Wf(s) && u in s.keypairs && a in s.accounts && s.accounts[a].keyUID.Some?
    requires a in KeypairFiles(s, u)
    ensures s.accounts[a].keyUID == Some(u)
  {
    assert WfAccount(s, a) && WfKeypair(s, u);
  }

  lemma SaveKeycardKeepsCoverage(s: Store, exempt: set<KeyUID>, op: Op, ok: bool, s': Store)
    requires op.SaveKeycard?
    requires Wf(s) && Coverage(s, exempt) && Step(s, op, ok, s') && Careful(s, op)
    ensures Coverage(s', NextExempt(exempt, op, ok))
  {
    if ok || s' != s {
      var u, saved := op.u, SaveKeycardRow(s, op.kc, op.u);
      assert HasKeycard(saved, u) by {
        KeycardRowAdded(s, op.kc, u, u);
        if op.kc in s.keycards { assert s.keycards[op.kc] == u; }
      }
      forall a | NeedsFile(s', NextExempt(exempt, op, ok), a)
        ensures NeedsFile(s, exempt, a) && (a in s.files ==> a in s'.files)
      {
        var v := s.accounts[a].keyUID.value;
        KeycardRowAdded(s, op.kc, u, v);
        assert s'.accounts[a].keyUID == Some(v) && v != u;
        if a in KeypairFiles(s, u) { KeypairFilesOwned(s, u, a); }
      }
      CoverageCarriesOver(s, exempt, s', NextExempt(exempt, op, ok));
    }
  }

  lemma RemovedKeypairCoverage(s: Store, exempt: set<KeyUID>, u: KeyUID, gone: set<Address>, s': Store)
    requires Wf(s) && Coverage(s, exempt) && u in s.keypairs
    requires s' == RemoveKeypair(s, u).(files := s.files - gone)
    requires forall a | a in s.accounts && s.accounts[a].keyUID.Some? && a in gone :: s.accounts[a].keyUID == Some(u)
    ensures Coverage(s', exempt)
  {
    forall a | NeedsFile(s', exempt, a) ensures NeedsFile(s, exempt, a) && (a in s.files ==> a in s'.files) {
      var v := s.accounts[a].keyUID.value;
      assert s'.accounts[a].keyUID == Some(v);
      if v != u {
        KeycardsOfOthers(FlagRemoved(s, LiveAccounts(s, u)), u, v);
      }
    }
    CoverageCarriesOver(s, exempt, s', exempt);
  }

  lemma AccountFilesOwned(s: Store, a: Address, b: Address)
    requires Wf(s) && a in s.accounts && b in s.accounts && s.accounts[b].keyUID.Some? && !s.accounts[b].removed
    requires AccountLive(s, a) && b in AccountFiles(s, a)
    ensures b == a
  {
    var u := s.accounts[a].keyUID.value;
    assert WfAccount(s, b) && WfKeypair(s, u);
    if b != a {
      assert {a, b} <= LiveAccounts(s, u);
      SingletonOnly(LiveAccounts(s, u), a, b);
    }
  }

  lemma SingletonOnly<T>(xs: set<T>, x: T, y: T)
    requires |xs| == 1 && x in xs && y in xs
    ensures x == y
  {
    assert |xs - {x}| == 0;
  }

  lemma DeleteAccountKeepsCoverage(s: Store, exempt: set<KeyUID>, a: Address, s': Store)
    requires Wf(s) && Coverage(s, exempt) && DeleteAccountStep(s, a, true, s')
    ensures Coverage(s', exempt)
  {
    var removed := RemoveAccount(s, a);
    var key := s.accounts[a].keyUID;
    forall b | b in s.accounts && s.accounts[b].keyUID.Some? && !s.accounts[b].removed && b in AccountFiles(s, a)
      ensures b == a
    {
      AccountFilesOwned(s, a, b);
    }
    if key.Some? && KeypairLive(s, key.value) && LiveAccounts(s, key.value) <= {a} {
      forall b | NeedsFile(s', exempt, b) ensures NeedsFile(s, exempt, b) && (b in s.files ==> b in s'.files) {
        var v := s.accounts[b].keyUID.value;
        assert s'.accounts[b].keyUID == Some(v);
        if v != key.value {
          KeycardsOfOthers(FlagRemoved(s, LiveAccounts(s, key.value)), key.value, v);
        }
      }
    }
    CoverageCarriesOver(s, exempt, s', exempt);
  }

  lemma GarbageNotNeeded(s: Store, exempt: set<KeyUID>, a: Address)
    requires Wf(s) && NeedsFile(s, exempt, a)
    ensures a !in Garbage(s, s.keypairs.Keys)
  {
    assert WfAccount(s, a);
    forall u | u in s.keypairs ensures a !in KeypairGarbage(s, u) {
      assert WfKeypair(s, u);
    }
  }

  /**
   The coverage theorem for one operation: it holds after every operation that succeeds, and for the
   operations that store before they mark also after every way of failing halfway.
   */
  lemma StepKeepsCoverage(s: Store, exempt: set<KeyUID>, op: Op, ok: bool, s': Store)
    requires Wf(s) && Coverage(s, exempt)
    requires Step(s, op, ok, s') && HonestDetails(s, op) && Careful(s, op)
    requires ok || FailsSafely(op)
    ensures Coverage(s', NextExempt(exempt, op, ok))
  {
    match op
    case CreateFromMnemonic(u, walletPath, profile) => CreateKeepsCoverage(s, exempt, op, s');
    case AddStoredToKeycard(u, master, ds) => if ok { AddStoredKeepsCoverage(s, exempt, u, master, ds, s'); }
    case CreateFromPrivateKey(u) => CreateKeepsCoverage(s, exempt, op, s');
    case MakeSeedOperable(u) => MakeKeepsCoverage(s, exempt, op, ok, s');
    case MakePrivateKeyOperable(u) => MakeKeepsCoverage(s, exempt, op, ok, s');
    case MakePartiallyOperable => PartialKeepsCoverage(s, exempt, ok, s');
    case AddAccounts(u, ds) => AddAccountsKeepsCoverage(s, exempt, u, ds, s');
    case MigrateToApp(u) => MigrateKeepsCoverage(s, exempt, u, ok, s');
    case SaveKeycard(kc, u, withPassword) => SaveKeycardKeepsCoverage(s, exempt, op, ok, s');
    case DeleteAccount(a) => DeleteAccountKeepsCoverage(s, exempt, a, s');
    case DeleteKeypair(u) =>
      forall a | a in s.accounts && s.accounts[a].keyUID.Some? && a in DeletedKeypairFiles(s, u)
        ensures s.accounts[a].keyUID == Some(u)
      {
        KeypairFilesOwned(s, u, a);
      }
      RemovedKeypairCoverage(s, exempt, u, DeletedKeypairFiles(s, u), s');
    case CleanFiles =>
      forall a | NeedsFile(s', exempt, a) ensures a in s.files ==> a in s'.files {
        assert NeedsFile(s, exempt, a);
        GarbageNotNeeded(s, exempt, a);
      }
      CoverageCarriesOver(s, exempt, s', exempt);
  }
}
