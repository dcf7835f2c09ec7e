/**
 What every successful operation of the accounts manager does to the tables and to the files, spelled out
 row by row and file by file (accounts-management/persistence_operations.go:17-612,
 keystore_operations.go:79-295, multiaccounts/accounts/database.go:498-541, 631-680, 767-936, 1099-1134).
 */
module AccountsEffects {
  import opened Wrappers
  import opened AccountsStore
  import opened AccountsRuns

  // ---------------------------------------------------------------------------
  // Words for states
  // ---------------------------------------------------------------------------

  /** Row a belongs to keypair u and is not flagged as removed. */
  predicate LiveOf(s: Store, u: KeyUID, a: Address) {
    a in s.accounts && s.accounts[a].keyUID == Some(u) && !s.accounts[a].removed
  }

  predicate OnKeycard(s: Store, u: KeyUID) { exists kc :: kc in s.keycards && s.keycards[kc] == u }

  predicate Active(s: Store, u: KeyUID) { u in s.keypairs && !s.keypairs[u].removed }

  /** Account a is the only live one of its keypair. */
  ghost predicate OnlyLive(s: Store, u: KeyUID, a: Address) {
    LiveOf(s, u, a) && forall b :: LiveOf(s, u, b) ==> b == a
  }

  lemma OnKeycardIsHasKeycard(s: Store, u: KeyUID)
    ensures OnKeycard(s, u) <==> HasKeycard(s, u)
  {
  }

  lemma OnlyLiveIsSingleton(s: Store, u: KeyUID, a: Address)
    requires LiveOf(s, u, a)
    ensures OnlyLive(s, u, a) <==> |LiveAccounts(s, u)| == 1
    ensures OnlyLive(s, u, a) <==> LiveAccounts(s, u) <= {a}
  {
    assert a in LiveAccounts(s, u);
    if |LiveAccounts(s, u)| == 1 {
      forall b | LiveOf(s, u, b) ensures b == a { SingletonOnly(LiveAccounts(s, u), a, b); }
    }
    if OnlyLive(s, u, a) {
      forall b | b in LiveAccounts(s, u) ensures b == a { assert LiveOf(s, u, b); }
      assert LiveAccounts(s, u) == {a};
    }
    if LiveAccounts(s, u) <= {a} {
      assert LiveAccounts(s, u) == {a};
    }
  }

  /** Rows differ in the picked ones only, and there as `change` says. */
  ghost predicate RowsChange(s: Store, s': Store, picked: Address -> bool, change: Account -> Account) {
    s'.accounts.Keys == s.accounts.Keys &&
    forall a | a in s.accounts :: s'.accounts[a] == if picked(a) then change(s.accounts[a]) else s.accounts[a]
  }

  /** The keycards of u are gone, the others stay. */
  ghost predicate KeycardsForgotten(s: Store, s': Store, u: KeyUID) {
    forall kc :: kc in s'.keycards <==> kc in s.keycards && s.keycards[kc] != u
  }

  ghost predicate KeycardsSame(s: Store, s': Store) {
    forall kc :: kc in s'.keycards ==> kc in s.keycards && s'.keycards[kc] == s.keycards[kc]
  }

  /** Keypair u is flagged as removed, with its live accounts and its keycards. */
  ghost predicate KeypairGone(s: Store, s': Store, u: KeyUID) {
    && u in s.keypairs && s'.keypairs == s.keypairs[u := s.keypairs[u].(removed := true)]
    && RowsChange(s, s', a => LiveOf(s, u, a), (r: Account) => r.(removed := true))
    && KeycardsForgotten(s, s', u) && KeycardsSame(s, s')
  }

  lemma RemoveKeypairIs(s: Store, u: KeyUID)
    requires u in s.keypairs
    ensures KeypairGone(s, RemoveKeypair(s, u), u)
  {
  }

  // ---------------------------------------------------------------------------
  // Deletions
  // ---------------------------------------------------------------------------

  /**
   DeleteAccount: the files that go.  For a fully operable account of a live keypair off keycards its own file,
   and with the last account of a keypair that has a master key also the master file; otherwise none.
   */
  lemma DeleteAccountFiles(s: Store, a: Address, s': Store)
    requires Step(s, DeleteAccount(a), true, s')
    ensures a in s.accounts
    ensures var row := s.accounts[a];
            if row.operable != FullyOperable || row.keyUID.None? || !Active(s, row.keyUID.value) || OnKeycard(s, row.keyUID.value)
            then s'.files == s.files
            else if s.keypairs[row.keyUID.value].kind != PrivateKey && OnlyLive(s, row.keyUID.value, a)
            then s'.files == s.files - {a, s.keypairs[row.keyUID.value].derivedFrom}
            else s'.files == s.files - {a}
  {
    var row := s.accounts[a];
    if row.keyUID.Some? {
      OnKeycardIsHasKeycard(s, row.keyUID.value);
      OnlyLiveIsSingleton(s, row.keyUID.value, a);
    }
  }

  /** DeleteAccount: the rows.  The account is flagged; with the last one of a live keypair, the keypair goes. */
  lemma DeleteAccountRows(s: Store, a: Address, s': Store)
    requires Step(s, DeleteAccount(a), true, s')
    ensures a in s.accounts && !s.accounts[a].removed && !s.accounts[a].chat && !s.accounts[a].wallet
    ensures var key := s.accounts[a].keyUID;
            if key.Some? && Active(s, key.value) && OnlyLive(s, key.value, a) then KeypairGone(s, s', key.value)
            else
              && RowsChange(s, s', b => b == a, (r: Account) => r.(removed := true))
              && s'.keypairs == s.keypairs && s'.keycards == s.keycards
  {
    var key := s.accounts[a].keyUID;
    if key.Some? { OnlyLiveIsSingleton(s, key.value, a); }
    RemoveAccountIs(s, a);
    var t := RemoveAccount(s, a);
    assert s'.accounts == t.accounts && s'.keypairs == t.keypairs && s'.keycards == t.keycards;
  }

  lemma RemoveAccountIs(s: Store, a: Address)
    requires a in s.accounts
    ensures var key := s.accounts[a].keyUID; var t := RemoveAccount(s, a);
            if key.Some? && Active(s, key.value) && LiveAccounts(s, key.value) <= {a} then KeypairGone(s, t, key.value)
            else
              && RowsChange(s, t, b => b == a, (r: Account) => r.(removed := true))
              && t.keypairs == s.keypairs && t.keycards == s.keycards
  {
    var key := s.accounts[a].keyUID;
    if key.Some? && Active(s, key.value) { RemoveKeypairIs(s, key.value); }
  }

  /** DeleteKeypair: off keycards every fully operable account's file goes, and the master file if any account is operable. */
  lemma DeleteKeypairEffect(s: Store, u: KeyUID, s': Store)
    requires Step(s, DeleteKeypair(u), true, s')
    ensures Active(s, u) && s.keypairs[u].kind != Profile && KeypairGone(s, s', u)
    ensures if OnKeycard(s, u) then s'.files == s.files
            else forall a :: a in s'.files <==> a in s.files && !GoesWithKeypair(s, u, a)
  {
    RemoveKeypairIs(s, u);
    OnKeycardIsHasKeycard(s, u);
    KeypairFilesAre(s, u);
  }

  /** The file of a fully operable live account, or the master file of a keypair with an operable account. */
  ghost predicate GoesWithKeypair(s: Store, u: KeyUID, a: Address)
    requires u in s.keypairs
  {
    || (LiveOf(s, u, a) && s.accounts[a].operable == FullyOperable)
    || (&& s.keypairs[u].kind != PrivateKey && a == s.keypairs[u].derivedFrom
        && exists b :: LiveOf(s, u, b) && s.accounts[b].operable != NonOperable)
  }

  lemma KeypairFilesAre(s: Store, u: KeyUID)
    requires u in s.keypairs
    ensures forall a :: a in KeypairFiles(s, u) <==> GoesWithKeypair(s, u, a)
  {
    if b :| LiveOf(s, u, b) && s.accounts[b].operable != NonOperable {
      assert b in LiveAccounts(s, u);
    }
  }

  // ---------------------------------------------------------------------------
  // Making operable, migrating, keycards
  // ---------------------------------------------------------------------------

  predicate OnlyFilesAndRows(s: Store, s': Store) { s'.keypairs == s.keypairs && s'.keycards == s.keycards }

  /** Every live account of the keypair becomes fully operable, and no other row changes. */
  ghost predicate AllOperable(s: Store, s': Store, u: KeyUID) {
    RowsChange(s, s', a => LiveOf(s, u, a), (r: Account) => r.(operable := FullyOperable))
  }

  /** MakeSeedPhraseKeypairFullyOperable: the master key and the key of every live account's path. */
  lemma MakeSeedEffect(s: Store, u: KeyUID, s': Store)
    requires Step(s, MakeSeedOperable(u), true, s')
    ensures Active(s, u) && OnlyFilesAndRows(s, s') && AllOperable(s, s', u)
    ensures forall f :: f in s'.files <==>
              f in s.files || f == Derived(u, "m") || exists a :: LiveOf(s, u, a) && f == Derived(u, s.accounts[a].path)
  {
    MnemonicFilesAre(s, u);
  }

  lemma MnemonicFilesAre(s: Store, u: KeyUID)
    ensures forall f :: f in MnemonicFiles(s, u) <==>
              f == Derived(u, "m") || exists a :: LiveOf(s, u, a) && f == Derived(u, s.accounts[a].path)
  {
    forall f ensures f in MnemonicFiles(s, u) <==> f == Derived(u, "m") || exists a :: LiveOf(s, u, a) && f == Derived(u, s.accounts[a].path) {
      if a :| LiveOf(s, u, a) && f == Derived(u, s.accounts[a].path) { assert a in LiveAccounts(s, u); }
    }
  }

  /** MakePrivateKeyKeypairFullyOperable: the master key only. */
  lemma MakePrivateKeyEffect(s: Store, u: KeyUID, s': Store)
    requires Step(s, MakePrivateKeyOperable(u), true, s')
    ensures Active(s, u) && OnlyFilesAndRows(s, s') && AllOperable(s, s', u)
    ensures Derived(u, "m") !in s.files && s'.files == s.files + {Derived(u, "m")}
  {
  }

  /** A live, partially operable account of a live keypair off keycards. */
  predicate HalfOperable(s: Store, a: Address) {
    && a in s.accounts && !s.accounts[a].removed && s.accounts[a].operable == PartiallyOperable
    && s.accounts[a].keyUID.Some? && Active(s, s.accounts[a].keyUID.value) && !OnKeycard(s, s.accounts[a].keyUID.value)
  }

  /** MakePartiallyOperableAccoutsFullyOperable: each such account is marked and its derived file is there. */
  lemma MakePartialEffect(s: Store, s': Store)
    requires Step(s, MakePartiallyOperable, true, s')
    ensures OnlyFilesAndRows(s, s') && RowsChange(s, s', a => HalfOperable(s, a), (r: Account) => r.(operable := FullyOperable))
    ensures s.files <= s'.files
    ensures forall a :: HalfOperable(s, a) ==> Child(s.keypairs[s.accounts[a].keyUID.value].derivedFrom, s.accounts[a].path) in s'.files
  {
    forall a ensures HalfOperable(s, a) <==> Partial(s, a) {
      if a in s.accounts && s.accounts[a].keyUID.Some? { OnKeycardIsHasKeycard(s, s.accounts[a].keyUID.value); }
    }
    forall a | HalfOperable(s, a) ensures PartialFile(s, a) in s'.files {
      assert a in Partials(s) && PartialFile(s, a) in PartialFiles(s);
    }
  }

  /** MigrateNonProfileKeycardKeypairToApp: all the keypair's keys are stored and its keycards forgotten. */
  lemma MigrateEffect(s: Store, u: KeyUID, s': Store)
    requires Step(s, MigrateToApp(u), true, s')
    ensures Active(s, u) && s.keypairs[u].kind != Profile && OnKeycard(s, u) && !OnKeycard(s', u)
    ensures s'.keypairs == s.keypairs && s'.accounts == s.accounts && KeycardsForgotten(s, s', u) && KeycardsSame(s, s')
    ensures forall f :: f in s'.files <==>
              f in s.files || f == Derived(u, "m") || exists a :: LiveOf(s, u, a) && f == Derived(u, s.accounts[a].path)
  {
    OnKeycardIsHasKeycard(s, u);
    MnemonicFilesAre(s, u);
  }

  /** SaveOrUpdateKeycard: a new uid is filed, a known one keeps its keypair; with a password the files of a keypair off keycards go. */
  lemma SaveKeycardEffect(s: Store, kc: KeycardUID, u: KeyUID, withPassword: bool, s': Store)
    requires Step(s, SaveKeycard(kc, u, withPassword), true, s')
    ensures Active(s, u) && s'.keypairs == s.keypairs
    ensures s'.keycards == if kc in s.keycards then s.keycards else s.keycards[kc := u]
    ensures if OnKeycard(s, u) || !withPassword then s'.accounts == s.accounts && s'.files == s.files
            else
              && AllOperable(s, s', u)
              && forall a :: a in s'.files <==> a in s.files && !GoesWithKeypair(s, u, a)
  {
    OnKeycardIsHasKeycard(s, u);
    KeypairFilesAre(s, u);
  }

  // ---------------------------------------------------------------------------
  // Saving accounts and keypairs
  // ---------------------------------------------------------------------------

  /** No later entry of the list has the address of entry i. */
  predicate LastOf(ds: seq<Details>, i: nat)
    requires i < |ds|
  {
    forall j | i < j < |ds| :: ds[j].address != ds[i].address
  }

  /** The last entry for an address decides the flags of its row. */
  lemma {:induction false} UpsertLastFlags(s: Store, ds: seq<Details>, i: nat)
    requires i < |ds| && LastOf(ds, i)
    ensures ds[i].address in UpsertAll(s, ds).accounts
    ensures var row := UpsertAll(s, ds).accounts[ds[i].address];
            row.operable == ds[i].row.operable && row.removed == ds[i].row.removed
  {
    var n := |ds| - 1;
    if i < n {
      var init := ds[..n];
      assert init[i] == ds[i] && LastOf(init, i);
      UpsertLastFlags(s, init, i);
    }
  }

  /** Rows saved by a list of accounts: new ones as listed, known ones with new flags, the others untouched. */
  ghost predicate RowsSaved(s: Store, s': Store, ds: seq<Details>) {
    && s'.accounts.Keys == s.accounts.Keys + Addresses(ds)
    && (forall a | a in s.accounts && a !in Addresses(ds) :: s'.accounts[a] == s.accounts[a])
    && (forall a | a in s.accounts :: SameIdentity(s'.accounts[a], s.accounts[a]))
    && (forall i | 0 <= i < |ds| && LastOf(ds, i) ::
          && ds[i].address in s'.accounts
          && s'.accounts[ds[i].address].operable == ds[i].row.operable
          && s'.accounts[ds[i].address].removed == ds[i].row.removed)
    && (forall a | a in s'.accounts && a !in s.accounts ::
          exists i | 0 <= i < |ds| :: ds[i].address == a && SameIdentity(s'.accounts[a], ds[i].row))
  }

  lemma UpsertSaves(s: Store, ds: seq<Details>)
    ensures RowsSaved(s, UpsertAll(s, ds), ds)
  {
    UpsertAllFacts(s, ds);
    forall i | 0 <= i < |ds| && LastOf(ds, i)
      ensures ds[i].address in UpsertAll(s, ds).accounts
      ensures UpsertAll(s, ds).accounts[ds[i].address].operable == ds[i].row.operable
      ensures UpsertAll(s, ds).accounts[ds[i].address].removed == ds[i].row.removed
    {
      UpsertLastFlags(s, ds, i);
    }
  }

  /** AddAccounts: the rows. */
  lemma AddAccountsRows(s: Store, u: KeyUID, ds: seq<Details>, s': Store)
    requires Step(s, AddAccounts(u, ds), true, s')
    ensures Active(s, u) && s.keypairs[u].kind != PrivateKey && ds != [] && OnlyFilesAndRows(s, s') && RowsSaved(s, s', ds)
  {
    var t := UpsertAll(s, ds);
    UpsertSaves(s, ds);
    UpsertAllFacts(s, ds);
    assert s'.accounts == t.accounts;
  }

  /** Off keycards each account was checked to be new, of the keypair, not a default one of the profile, and rightly derived. */
  lemma AddAccountsChecks(s: Store, u: KeyUID, ds: seq<Details>, s': Store, i: nat)
    requires Step(s, AddAccounts(u, ds), true, s') && !OnKeycard(s, u) && i < |ds|
    ensures ds[i].row.keyUID == Some(u) && !LiveOf(s, u, ds[i].address)
    ensures Active(s, u) && (s.keypairs[u].kind == Profile ==> !ds[i].row.chat && !ds[i].row.wallet)
    ensures s.keypairs[u].derivedFrom in s.files && ds[i].address == Child(s.keypairs[u].derivedFrom, ds[i].row.path)
  {
    OnKeycardIsHasKeycard(s, u);
    assert ds[i].address !in LiveAccounts(s, u);
  }

  /** And then its file is there; on a keycard no file changes. */
  lemma AddAccountsFiles(s: Store, u: KeyUID, ds: seq<Details>, s': Store)
    requires Step(s, AddAccounts(u, ds), true, s')
    ensures s'.files == if OnKeycard(s, u) then s.files else s.files + Addresses(ds)
  {
    OnKeycardIsHasKeycard(s, u);
    if !HasKeycard(s, u) {
      ChecksGiveAddresses(s, u, ds);
    }
  }

  lemma ChecksGiveAddresses(s: Store, u: KeyUID, ds: seq<Details>)
    requires u in s.keypairs && AddChecked(s, u, ds)
    ensures ChildFiles(s.keypairs[u].derivedFrom, ds) == Addresses(ds)
  {
  }

  /** Keypair u is live: new with the given kind and master address, or brought back with those it had; others stay. */
  ghost predicate KeypairBack(s: Store, s': Store, u: KeyUID, kind: KeypairKind, derivedFrom: Address) {
    && s'.keypairs == s.keypairs[u := if u in s.keypairs then s.keypairs[u].(removed := false) else Keypair(kind, derivedFrom, false)]
    && s'.keycards == s.keycards
  }

  /** The rows a keypair that is not live starts from: those it had before are dropped. */
  function WithoutRowsOf(s: Store, u: KeyUID): Store {
    s.(accounts := map a | a in s.accounts && (u in s.keypairs ==> s.accounts[a].keyUID != Some(u)) :: s.accounts[a])
  }

  lemma SavedKeypairIs(s: Store, u: KeyUID, kind: KeypairKind, derivedFrom: Address, ds: seq<Details>)
    requires !Active(s, u)
    ensures var t := UpsertAll(KeypairSaved(s, u, kind, derivedFrom), ds);
            KeypairBack(s, t, u, kind, derivedFrom) && RowsSaved(WithoutRowsOf(s, u), t, ds) && t.files == s.files
  {
    var mid := KeypairSaved(s, u, kind, derivedFrom);
    assert mid.accounts == WithoutRowsOf(s, u).accounts;
    UpsertSaves(mid, ds);
    UpsertAllFacts(mid, ds);
  }

  lemma SavedAs(s: Store, u: KeyUID, kind: KeypairKind, derivedFrom: Address, ds: seq<Details>, files: set<Address>, s': Store)
    requires !Active(s, u) && SaveKeypair(s, u, kind, derivedFrom, ds).Some?
    requires s' == SaveKeypair(s, u, kind, derivedFrom, ds).value.(files := s.files + files)
    ensures KeypairBack(s, s', u, kind, derivedFrom) && RowsSaved(WithoutRowsOf(s, u), s', ds)
  {
    SavedKeypairIs(s, u, kind, derivedFrom, ds);
    RowsSavedIgnoresFiles(WithoutRowsOf(s, u), UpsertAll(KeypairSaved(s, u, kind, derivedFrom), ds), s', ds);
  }

  lemma RowsSavedIgnoresFiles(s: Store, t: Store, t': Store, ds: seq<Details>)
    requires RowsSaved(s, t, ds) && t'.accounts == t.accounts
    ensures RowsSaved(s, t', ds)
  {
  }

  /** AddKeypairStoredToKeycard: the rows only. */
  lemma AddStoredEffect(s: Store, u: KeyUID, master: Address, ds: seq<Details>, s': Store)
    requires Step(s, AddStoredToKeycard(u, master, ds), true, s')
    ensures !Active(s, u) && ds != [] && KeypairBack(s, s', u, Seed, master) && RowsSaved(WithoutRowsOf(s, u), s', ds)
    ensures s'.files == s.files
  {
    SavedKeypairIs(s, u, Seed, master, ds);
  }

  /** CreateKeypairFromPrivateKeyAndStore: one account at the master address, and its file. */
  lemma CreatePrivateKeyEffect(s: Store, u: KeyUID, s': Store)
    requires Step(s, CreateFromPrivateKey(u), true, s')
    ensures !Active(s, u) && KeypairBack(s, s', u, PrivateKey, NoAddress)
    ensures RowsSaved(WithoutRowsOf(s, u), s', [Details(Derived(u, "m"), Account(Some(u), "m", false, false, FullyOperable, false))])
    ensures Derived(u, "m") !in s.files && s'.files == s.files + {Derived(u, "m")}
  {
    SavedAs(s, u, PrivateKey, NoAddress, PrivateKeyDetails(u), {Master(u)}, s');
  }

  /** The accounts of a new mnemonic keypair: the wallet account, and for the profile the chat account before it. */
  function NewAccounts(u: KeyUID, wallet: Path, profile: bool): seq<Details> {
    var walletAccount := Details(Derived(u, wallet), Account(Some(u), wallet, profile, false, FullyOperable, false));
    if profile
    then [Details(Derived(u, PATH_CHAT), Account(Some(u), PATH_CHAT, false, true, FullyOperable, false)), walletAccount]
    else [walletAccount]
  }

  /** CreateKeypairFromMnemonicAndStore: default flags for the profile only; the master, wallet and chat files. */
  lemma CreateMnemonicEffect(s: Store, u: KeyUID, wallet: Path, profile: bool, s': Store)
    requires Step(s, CreateFromMnemonic(u, wallet, profile), true, s')
    ensures !Active(s, u) && KeypairBack(s, s', u, if profile then Profile else Seed, Derived(u, "m"))
    ensures RowsSaved(WithoutRowsOf(s, u), s', NewAccounts(u, wallet, profile))
    ensures s'.files == s.files + {Derived(u, "m"), Derived(u, wallet)} + (if profile then {Derived(u, PATH_CHAT)} else {})
  {
    var ds := MnemonicDetails(u, wallet, profile);
    NewAccountsAre(u, wallet, profile);
    SavedAs(s, u, MnemonicKind(profile), Master(u), ds, CreatedFiles(u, wallet, profile), s');
  }

  lemma NewAccountsAre(u: KeyUID, wallet: Path, profile: bool)
    ensures MnemonicDetails(u, wallet, profile) == NewAccounts(u, wallet, profile)
  {
  }
}
