/**
 The operations of AccountsManager (accounts-management/persistence_operations.go,
 keystore_operations.go, manager.go), statement by statement over the two stores.

 Every database statement and every keystore call may fail: `CallFails` is the oracle.  Each operation
 is proved to take a `Step` of `AccountsRuns`, whatever the oracle answers.
 */
module AccountsManagement {
  import opened Wrappers
  import opened AccountsStore
  import opened AccountsRuns

  datatype Error =
    | KeypairDoesNotHaveWalletAccount
    | KeypairMustHaveAtLeastOneWalletAccount
    | UnsupportedWalletAccountPath
    | PersistenceMissing
    | KeystoreMissing
    | KeystoreFileMissing
    | KeystoreFileExists
    | NoPasswordProvided
    | KeypairAlreadyAdded
    | KeypairNotFound
    | AccountNotFound
    | AccountMismatch
    | AccountAlreadyAdded
    | CannotAddDefaultAccount
    | CannotAddAccountsToPrivateKeyKeypair
    | CannotMigrateProfileKeypair
    | KeypairIsNotKeycard
    | ProfileKeypairMissing
    | KeycardDoesNotHaveAnyAccounts
    | CannotRemoveDefaultAccount
    | CannotRemoveProfileKeypair
    | CallFailed

  type Outcome = Result<(), Error>

  class AccountsManager {
    var store: Store
    var keystoreOpen: bool
    var persistenceSet: bool
    var selectedChatAccount: Option<Address>
    var profileKeyUID: KeyUID

    /** Set in runs where no database or keystore call fails. */
    const reliable: bool

    constructor (store: Store, keystoreOpen: bool, reliable: bool)
      ensures this.store == store && this.keystoreOpen == keystoreOpen && this.reliable == reliable
      ensures persistenceSet && selectedChatAccount == None && profileKeyUID == ""
    {
      this.store, this.keystoreOpen, this.reliable := store, keystoreOpen, reliable;
      persistenceSet, selectedChatAccount, profileKeyUID := true, None, "";
    }

    /** Whether the next database or keystore call fails. */
    method CallFails() returns (fails: bool)
      ensures reliable ==> !fails
    {
      fails := *;
      fails := fails && !reliable;
    }

    // -------------------------------------------------------------------------
    // Keystore helpers
    // -------------------------------------------------------------------------

    /** loadAccountInternally: the file must be there, and decrypting it may fail. */
    method LoadAccount(a: Address) returns (r: Outcome)
      ensures r.Ok? ==> keystoreOpen && a in store.files
      ensures reliable && keystoreOpen && a in store.files ==> r.Ok?
      ensures !keystoreOpen ==> r == Err(KeystoreMissing)
    {
      if !keystoreOpen { return Err(KeystoreMissing); }
      if a !in store.files { return Err(KeystoreFileMissing); }
      var fails := CallFails();
      return if fails then Err(CallFailed) else Ok(());
    }

    /** storeToKeystore: an extended key whose file is there is left as it is; a plain private key is refused. */
    method StoreToKeystore(a: Address, extended: bool) returns (r: Outcome)
      modifies this`store
      ensures store == old(store).(files := if r.Ok? then old(store.files) + {a} else old(store.files))
      ensures r.Ok? ==> keystoreOpen && (extended || a !in old(store.files))
      ensures reliable && keystoreOpen && (extended || a !in old(store.files)) ==> r.Ok?
    {
      if !keystoreOpen { return Err(KeystoreMissing); }
      if a in store.files { return if extended then Ok(()) else Err(KeystoreFileExists); }
      var fails := CallFails();
      if fails { return Err(CallFailed); }
      store := store.(files := store.files + {a});
      return Ok(());
    }

    /** storeKeystoreFilesForAccounts: the master key first, then the derived keys in any order. */
    method StoreKeystoreFiles(master: Address, derived: set<Address>, extended: bool) returns (r: Outcome)
      modifies this`store
      ensures Stopped(store, old(store), old(store.files), old(store.files) + {master} + derived)
      ensures r.Ok? ==> store == old(store).(files := old(store.files) + {master} + derived)
      ensures r.Ok? ==> extended || master !in old(store.files)
      ensures reliable && keystoreOpen && (extended || (master !in old(store.files) && derived == {})) ==> r.Ok?
    {
      r := StoreToKeystore(master, extended);
      if r.Err? { return; }
      var todo := derived;
      while todo != {}
        invariant todo <= derived
        invariant r.Ok?
        invariant store == old(store).(files := old(store.files) + {master} + (derived - todo))
        decreases todo
      {
        var a :| a in todo;
        r := StoreToKeystore(a, extended);
        if r.Err? { return; }
        todo := todo - {a};
      }
      assert derived - todo == derived;
    }

    /** deleteAccountFromKeystoreIfExists: a missing file is no error. */
    method DeleteFileIfExists(a: Address) returns (r: Outcome)
      modifies this`store
      ensures store == old(store).(files := old(store.files) - (if r.Ok? then {a} else {}))
      ensures reliable && keystoreOpen ==> r.Ok?
      ensures !keystoreOpen ==> r == Err(KeystoreMissing)
    {
      if !keystoreOpen { return Err(KeystoreMissing); }
      if a !in store.files { return Ok(()); }
      var fails := CallFails();
      if fails { return Err(CallFailed); }
      store := store.(files := store.files - {a});
      return Ok(());
    }

    method DeleteFiles(files: set<Address>) returns (r: Outcome)
      modifies this`store
      ensures Stopped(store, old(store), old(store.files) - files, old(store.files))
      ensures r.Ok? ==> store == old(store).(files := old(store.files) - files)
      ensures reliable && keystoreOpen ==> r.Ok?
    {
      var todo := files;
      r := Ok(());
      while todo != {}
        invariant todo <= files
        invariant r.Ok?
        invariant store == old(store).(files := old(store.files) - (files - todo))
        decreases todo
      {
        var a :| a in todo;
        r := DeleteFileIfExists(a);
        if r.Err? { return; }
        todo := todo - {a};
      }
      assert files - todo == files;
    }

    /** deriveChildAccountForPathAndStore */
    method DeriveChildAndStore(from: Address, path: Path) returns (r: Outcome)
      modifies this`store
      ensures store == old(store).(files := old(store.files) + (if r.Ok? then {Child(from, path)} else {}))
      ensures r.Ok? ==> from in old(store.files)
      ensures reliable && keystoreOpen && from in old(store.files) ==> r.Ok?
    {
      r := LoadAccount(from);
      if r.Err? { return; }
      r := StoreToKeystore(Child(from, path), true);
    }

    /** deleteKeystoreFilesForKeypairInternally for the keypair u as read from snapshot s. */
    method DeleteKeypairFiles(s: Store, u: KeyUID, password: string) returns (r: Outcome)
      requires u in s.keypairs
      modifies this`store
      ensures Stopped(store, old(store), old(store.files) - DeletedKeypairFiles(s, u), old(store.files))
      ensures r.Ok? ==> store == old(store).(files := old(store.files) - DeletedKeypairFiles(s, u))
      ensures reliable && password != "" && (HasKeycard(s, u) || keystoreOpen) ==> r.Ok?
      ensures password == "" ==> r == Err(NoPasswordProvided) && store == old(store)
    {
      if password == "" { return Err(NoPasswordProvided); }
      if HasKeycard(s, u) { return Ok(()); }
      ghost var goal := KeypairFiles(s, u);
      var live := LiveAccounts(s, u);
      var todo, operable := live, false;
      ghost var gone: set<Address> := {};
      while todo != {}
        invariant todo <= live
        invariant operable <==> exists a :: a in live - todo && s.accounts[a].operable != NonOperable
        invariant gone == set a | a in live - todo && s.accounts[a].operable == FullyOperable
        invariant store == old(store).(files := old(store.files) - gone)
        decreases todo
      {
        var a :| a in todo;
        todo := todo - {a};
        if s.accounts[a].operable == NonOperable { continue; }
        operable := true;
        if s.accounts[a].operable == PartiallyOperable { continue; }
        r := DeleteFileIfExists(a);
        if r.Err? { return; }
        gone := gone + {a};
      }
      assert live - todo == live;
      r := Ok(());
      if operable && s.keypairs[u].kind != PrivateKey {
        r := DeleteFileIfExists(s.keypairs[u].derivedFrom);
      }
    }

    /** What deleting the file of account a needs: nothing unless the file is the app's to delete. */
    static predicate FilesDeletable(s: Store, a: Address, password: string, keystoreOpen: bool)
      requires a in s.accounts
    {
      var acc := s.accounts[a];
      acc.operable == FullyOperable && acc.keyUID.Some? ==>
        password != "" && KeypairLive(s, acc.keyUID.value) && (HasKeycard(s, acc.keyUID.value) || keystoreOpen)
    }

    /** deleteKeystoreFileForAccountInternally */
    method DeleteAccountFile(a: Address, password: string) returns (r: Outcome)
      modifies this`store
      ensures store.(files := {}) == old(store).(files := {})
      ensures r.Ok? ==> AccountLive(old(store), a)
      ensures store != old(store) ==> AccountLive(old(store), a)
      ensures AccountLive(old(store), a) ==>
                FilesBetween(old(store.files) - AccountFiles(old(store), a), store, old(store.files))
      ensures r.Ok? ==> store.files == old(store.files) - AccountFiles(old(store), a)
      ensures reliable && AccountLive(old(store), a) && FilesDeletable(old(store), a, password, keystoreOpen) ==> r.Ok?
    {
      var fails := CallFails();
      if fails { return Err(CallFailed); }
      if !AccountLive(store, a) { return Err(AccountNotFound); }
      var acc := store.accounts[a];
      if acc.operable != FullyOperable || acc.keyUID.None? { return Ok(()); }
      if password == "" { return Err(NoPasswordProvided); }
      var u := acc.keyUID.value;
      if !KeypairLive(store, u) { return Err(KeypairNotFound); }
      if HasKeycard(store, u) { return Ok(()); }
      var last := |LiveAccounts(store, u)| == 1;
      var kp := store.keypairs[u];
      r := DeleteFileIfExists(a);
      if r.Err? { return; }
      if kp.kind != PrivateKey && last {
        r := DeleteFileIfExists(kp.derivedFrom);
      }
    }

    // -------------------------------------------------------------------------
    // Keypairs and accounts
    // -------------------------------------------------------------------------

    /** Saves a keypair that is not live with its accounts, then stores the master key and the derived keys. */
    method SaveAndStore(u: KeyUID, kind: KeypairKind, derivedFrom: Address, details: seq<Details>, derived: set<Address>,
                        extended: bool)
      returns (r: Outcome)
      modifies this`store
      ensures r.Ok? ==> extended || Master(u) !in old(store.files)
      ensures var saved := SaveKeypair(old(store), u, kind, derivedFrom, details); var files := {Master(u)} + derived;
              if r.Ok? then saved.Some? && store == saved.value.(files := old(store.files) + files)
              else store == old(store) || (saved.Some? && Stopped(store, saved.value, old(store.files), old(store.files) + files))
      ensures (reliable && keystoreOpen && SaveKeypair(old(store), u, kind, derivedFrom, details).Some? &&
              (extended || (Master(u) !in old(store.files) && derived == {}))) ==> r.Ok?
    {
      var saved := SaveKeypair(store, u, kind, derivedFrom, details);
      var fails := CallFails();
      if saved.None? || fails { return Err(CallFailed); }
      store := saved.value;
      UpsertAllFacts(KeypairSaved(old(store), u, kind, derivedFrom), details);
      r := StoreKeystoreFiles(Master(u), derived, extended);
      assert old(store.files) + {Master(u)} + derived == old(store.files) + ({Master(u)} + derived);
    }

    /** CreateKeypairFromMnemonicAndStore; u is the key uid the mnemonic determines. */
    method CreateKeypairFromMnemonicAndStore(u: KeyUID, wallet: Option<Path>, profile: bool)
      returns (r: Result<seq<Details>, Error>)
      modifies this`store, this`keystoreOpen, this`selectedChatAccount, this`profileKeyUID
      ensures wallet.None? ==> r == Err(KeypairDoesNotHaveWalletAccount) && store == old(store)
      ensures wallet.Some? ==> Step(old(store), CreateFromMnemonic(u, wallet.value, profile), r.Ok?, store)
      ensures wallet.Some? && !(WALLET_PATH <= wallet.value) ==> r == Err(UnsupportedWalletAccountPath)
      ensures KeypairLive(old(store), u) || !persistenceSet ==> r.Err? && store == old(store)
      ensures r.Ok? ==> r.value == MnemonicDetails(u, wallet.value, profile)
      ensures (reliable && wallet.Some? && WALLET_PATH <= wallet.value && persistenceSet && !KeypairLive(old(store), u) &&
              (profile || old(keystoreOpen))) ==> r.Ok?
      ensures if r.Ok? && profile then selectedChatAccount == Some(Derived(u, PATH_CHAT)) && profileKeyUID == u
              else selectedChatAccount == old(selectedChatAccount) && profileKeyUID == old(profileKeyUID)
    {
      if wallet.None? { return Err(KeypairDoesNotHaveWalletAccount); }
      var path := wallet.value;
      if !(WALLET_PATH <= path) { return Err(UnsupportedWalletAccountPath); }
      if !persistenceSet { return Err(PersistenceMissing); }
      var fails := CallFails();
      if fails { return Err(CallFailed); }
      if KeypairLive(store, u) { return Err(KeypairAlreadyAdded); }
      if profile {
        fails := CallFails();
        if fails { return Err(CallFailed); }
        keystoreOpen := true;
      }
      var details := MnemonicDetails(u, path, profile);
      var derived := {Derived(u, path)} + (if profile then {Derived(u, PATH_CHAT)} else {});
      var stored := SaveAndStore(u, MnemonicKind(profile), Master(u), details, derived, true);
      assert {Master(u)} + derived == CreatedFiles(u, path, profile);
      if stored.Err? { return Err(stored.error); }
      if profile {
        selectedChatAccount, profileKeyUID := Some(Derived(u, PATH_CHAT)), u;
      }
      return Ok(details);
    }

    /** AddKeypairStoredToKeycard: the database only; the keycard itself is saved by a later call. */
    method AddKeypairStoredToKeycard(u: KeyUID, master: Address, details: seq<Details>) returns (r: Outcome)
      modifies this`store
      ensures Step(old(store), AddStoredToKeycard(u, master, details), r.Ok?, store)
      ensures details == [] ==> r == Err(KeypairMustHaveAtLeastOneWalletAccount)
      ensures (reliable && persistenceSet && details != [] && !KeypairLive(old(store), u) &&
              (forall i | 0 <= i < |details| :: WALLET_PATH <= details[i].row.path) &&
              SaveKeypair(old(store), u, Seed, master, details).Some?) ==> r.Ok?
      ensures (exists i | 0 <= i < |details| :: !(WALLET_PATH <= details[i].row.path)) ==>
                r == Err(UnsupportedWalletAccountPath)
    {
      if details == [] { return Err(KeypairMustHaveAtLeastOneWalletAccount); }
      for i := 0 to |details|
        invariant forall j | 0 <= j < i :: WALLET_PATH <= details[j].row.path
      {
        if !(WALLET_PATH <= details[i].row.path) { return Err(UnsupportedWalletAccountPath); }
      }
      if !persistenceSet { return Err(PersistenceMissing); }
      var fails := CallFails();
      if fails { return Err(CallFailed); }
      if KeypairLive(store, u) { return Err(KeypairAlreadyAdded); }
      var saved := SaveKeypair(store, u, Seed, master, details);
      fails := CallFails();
      if saved.None? || fails { return Err(CallFailed); }
      store := saved.value;
      return Ok(());
    }

    /** CreateKeypairFromPrivateKeyAndStore */
    method CreateKeypairFromPrivateKeyAndStore(u: KeyUID, wallet: Option<Path>) returns (r: Outcome)
      modifies this`store
      ensures Step(old(store), CreateFromPrivateKey(u), r.Ok?, store)
      ensures wallet.None? ==> r == Err(KeypairDoesNotHaveWalletAccount)
      ensures wallet.Some? && wallet.value != PATH_MASTER ==> r == Err(UnsupportedWalletAccountPath)
      ensures (reliable && wallet == Some(PATH_MASTER) && persistenceSet && keystoreOpen && !KeypairLive(old(store), u) &&
              Master(u) !in old(store.files)) ==> r.Ok?
      ensures KeypairLive(old(store), u) || !persistenceSet ==> r.Err? && store == old(store)
    {
      if wallet.None? { return Err(KeypairDoesNotHaveWalletAccount); }
      if wallet.value != PATH_MASTER { return Err(UnsupportedWalletAccountPath); }
      if !persistenceSet { return Err(PersistenceMissing); }
      var fails := CallFails();
      if fails { return Err(CallFailed); }
      if KeypairLive(store, u) { return Err(KeypairAlreadyAdded); }
      r := SaveAndStore(u, PrivateKey, NoAddress, PrivateKeyDetails(u), {}, false);
      assert {Master(u)} + {} == {Master(u)};
    }

    /** MakeSeedPhraseKeypairFullyOperable: store every key, then mark the keypair. */
    method MakeSeedPhraseKeypairFullyOperable(u: KeyUID) returns (r: Outcome)
      modifies this`store
      ensures Step(old(store), MakeSeedOperable(u), r.Ok?, store)
      ensures reliable && persistenceSet && keystoreOpen && KeypairLive(old(store), u) ==> r.Ok?
      ensures !KeypairLive(old(store), u) || !persistenceSet ==> r.Err? && store == old(store)
    {
      if !persistenceSet { return Err(PersistenceMissing); }
      var fails := CallFails();
      if fails { return Err(CallFailed); }
      if !KeypairLive(store, u) { return Err(KeypairNotFound); }
      var derived := set a | a in LiveAccounts(store, u) :: Derived(u, store.accounts[a].path);
      r := StoreKeystoreFiles(Master(u), derived, true);
      assert {Master(u)} + derived == MnemonicFiles(old(store), u);
      if r.Err? { return; }
      fails := CallFails();
      if fails { return Err(CallFailed); }
      assert LiveAccounts(store, u) == LiveAccounts(old(store), u);
      store := MarkKeypairOperable(store, u);
    }

    /** MakePrivateKeyKeypairFullyOperable: stores the master key only, then marks every live account. */
    method MakePrivateKeyKeypairFullyOperable(u: KeyUID) returns (r: Outcome)
      modifies this`store
      ensures Step(old(store), MakePrivateKeyOperable(u), r.Ok?, store)
      ensures (reliable && persistenceSet && keystoreOpen && KeypairLive(old(store), u) &&
              Master(u) !in old(store.files)) ==> r.Ok?
      ensures !KeypairLive(old(store), u) || !persistenceSet ==> r.Err? && store == old(store)
    {
      if !persistenceSet { return Err(PersistenceMissing); }
      var fails := CallFails();
      if fails { return Err(CallFailed); }
      if !KeypairLive(store, u) { return Err(KeypairNotFound); }
      r := StoreKeystoreFiles(Master(u), {}, false);
      if r.Err? { return; }
      fails := CallFails();
      if fails { return Err(CallFailed); }
      assert LiveAccounts(store, u) == LiveAccounts(old(store), u);
      store := MarkKeypairOperable(store, u);
    }

    /** Where the loops of MakePartiallyOperableAccoutsFullyOperable stand once `done` is handled. */
    static ghost predicate PartialProgress(s: Store, done: set<Address>, now: Store) {
      && done <= Partials(s)
      && now == MarkAccounts(s, done).(files := now.files)
      && FilesBetween(s.files, now, s.files + PartialFiles(s))
      && (NoAddress in now.files ==> NoAddress in s.files)
      && forall a | a in done :: PartialFile(s, a) in now.files
    }

    static lemma PartialProgressStep(s: Store, done: set<Address>, now: Store, ok: bool)
      requires PartialProgress(s, done, now) && (ok ==> done == Partials(s))
      ensures PartialStep(s, ok, now)
    {
    }

    /** One account of the loop; on an error the new file may be there without the mark. */
    method MakeAccountOperable(ghost s: Store, ghost done: set<Address>, from: Address, a: Address, path: Path)
      returns (r: Outcome)
      requires PartialProgress(s, done, store) && Partial(s, a)
      requires path == s.accounts[a].path && from == s.keypairs[s.accounts[a].keyUID.value].derivedFrom
      modifies this`store
      ensures PartialProgress(s, if r.Ok? then done + {a} else done, store)
      ensures reliable && keystoreOpen && from in s.files ==> r.Ok?
    {
      assert a in Partials(s) && PartialFile(s, a) in PartialFiles(s);
      r := DeriveChildAndStore(from, path);
      if r.Err? { return; }
      var fails := CallFails();
      if fails { return Err(CallFailed); }
      store := MarkAccounts(store, {a});
      assert store.accounts == MarkAccounts(s, done + {a}).accounts;
    }

    /** Every partially operable account has its master key on disk. */
    static predicate PartialsLoadable(s: Store) {
      forall a | a in Partials(s) :: s.keypairs[s.accounts[a].keyUID.value].derivedFrom in s.files
    }

    /** MakePartiallyOperableAccoutsFullyOperable */
    method MakePartiallyOperableAccountsFullyOperable(password: string) returns (r: Result<set<Address>, Error>)
      modifies this`store
      ensures Step(old(store), MakePartiallyOperable, r.Ok?, store)
      ensures password == "" ==> r == Err(NoPasswordProvided) && store == old(store)
      ensures r.Ok? ==> r.value == Partials(old(store))
      ensures reliable && password != "" && persistenceSet && keystoreOpen && PartialsLoadable(old(store)) ==> r.Ok?
    {
      var s := store;
      assert PartialProgress(s, {}, s) by { assert MarkAccounts(s, {}).accounts == s.accounts; }
      PartialProgressStep(s, {}, s, false);
      if password == "" { return Err(NoPasswordProvided); }
      if !persistenceSet { return Err(PersistenceMissing); }
      var fails := CallFails();
      if fails { return Err(CallFailed); }
      var keypairs := set u | u in s.keypairs && KeypairLive(s, u);
      var addresses: set<Address> := {};
      while keypairs != {}
        invariant forall u | u in keypairs :: KeypairLive(s, u)
        invariant PartialProgress(s, addresses, store)
        invariant forall a | a in Partials(s) && a !in addresses :: s.accounts[a].keyUID.value in keypairs
        decreases keypairs
      {
        var u :| u in keypairs;
        keypairs := keypairs - {u};
        if HasKeycard(s, u) { continue; }
        var accounts := LiveAccounts(s, u);
        while accounts != {}
          invariant accounts <= LiveAccounts(s, u)
          invariant PartialProgress(s, addresses, store)
          invariant forall a | a in Partials(s) && a !in addresses ::
                      s.accounts[a].keyUID.value in keypairs || a in accounts
          decreases accounts
        {
          var a :| a in accounts;
          accounts := accounts - {a};
          if s.accounts[a].operable != PartiallyOperable { continue; }
          assert a in Partials(s);
          var made := MakeAccountOperable(s, addresses, s.keypairs[u].derivedFrom, a, s.accounts[a].path);
          if made.Err? {
            PartialProgressStep(s, addresses, store, false);
            return Err(made.error);
          }
          addresses := addresses + {a};
        }
      }
      PartialProgressStep(s, addresses, store, true);
      return Ok(addresses);
    }

    /** The checks of AddAccounts for a keypair outside a keycard. */
    method CheckAddedAccounts(u: KeyUID, details: seq<Details>) returns (r: Outcome)
      requires u in store.keypairs
      ensures r.Ok? ==> AddChecked(store, u, details)
      ensures reliable && keystoreOpen && AddChecked(store, u, details) ==> r.Ok?
    {
      var kp := store.keypairs[u];
      for i := 0 to |details|
        invariant AddChecked(store, u, details[..i])
      {
        var d := details[i];
        if d.row.keyUID != Some(u) { return Err(AccountMismatch); }
        if kp.kind == Profile && (d.row.chat || d.row.wallet) { return Err(CannotAddDefaultAccount); }
        if d.address in LiveAccounts(store, u) { return Err(AccountAlreadyAdded); }
        var loaded := LoadAccount(kp.derivedFrom);
        if loaded.Err? { assert details[i] == d; return loaded; }
        if Child(kp.derivedFrom, d.row.path) != d.address { return Err(AccountMismatch); }
        assert details[..i + 1] == details[..i] + [d];
      }
      assert details[..|details|] == details;
      return Ok(());
    }

    method StoreChildren(from: Address, details: seq<Details>) returns (r: Outcome)
      modifies this`store
      ensures Stopped(store, old(store), old(store.files), old(store.files) + ChildFiles(from, details))
      ensures r.Ok? ==> store == old(store).(files := old(store.files) + ChildFiles(from, details))
      ensures reliable && keystoreOpen && from in old(store.files) ==> r.Ok?
    {
      r := Ok(());
      for i := 0 to |details|
        invariant r.Ok?
        invariant store == old(store).(files := old(store.files) + ChildFiles(from, details[..i]))
      {
        assert details[..i + 1] == details[..i] + [details[i]];
        ChildFilesExtend(from, details[..i], details[i]);
        PrefixFiles(from, details, i);
        r := DeriveChildAndStore(from, details[i].row.path);
        if r.Err? { return; }
      }
      assert details[..|details|] == details;
    }

    static lemma ChildFilesExtend(from: Address, details: seq<Details>, d: Details)
      ensures ChildFiles(from, details + [d]) == ChildFiles(from, details) + {Child(from, d.row.path)}
    {
      var all := details + [d];
      forall i | 0 <= i < |details| ensures Child(from, details[i].row.path) in ChildFiles(from, all) {
        assert all[i] == details[i];
      }
      assert all[|details|] == d;
    }

    static lemma PrefixFiles(from: Address, details: seq<Details>, i: nat)
      requires i <= |details|
      ensures ChildFiles(from, details[..i]) <= ChildFiles(from, details)
    {
      forall j | 0 <= j < i ensures Child(from, details[..i][j].row.path) in ChildFiles(from, details) {
        assert details[..i][j] == details[j];
      }
    }

    /** AddAccounts: save the rows, then derive and store the files. */
    method AddAccountsToKeypair(u: KeyUID, details: seq<Details>) returns (r: Outcome)
      modifies this`store
      ensures Step(old(store), AddAccounts(u, details), r.Ok?, store)
      ensures (reliable && persistenceSet && KeypairLive(old(store), u) && old(store).keypairs[u].kind != PrivateKey &&
              SaveAccounts(old(store), details).Some? &&
              (HasKeycard(old(store), u) || (keystoreOpen && AddChecked(old(store), u, details)))) ==> r.Ok?
    {
      if !persistenceSet { return Err(PersistenceMissing); }
      var fails := CallFails();
      if fails { return Err(CallFailed); }
      if !KeypairLive(store, u) { return Err(KeypairNotFound); }
      var kp, onKeycard := store.keypairs[u], HasKeycard(store, u);
      if kp.kind == PrivateKey { return Err(CannotAddAccountsToPrivateKeyKeypair); }
      if !onKeycard {
        r := CheckAddedAccounts(u, details);
        if r.Err? { return; }
      }
      var saved := SaveAccounts(store, details);
      fails := CallFails();
      if saved.None? || fails { return Err(CallFailed); }
      store := saved.value;
      UpsertAllFacts(old(store), details);
      r := Ok(());
      if !onKeycard {
        r := StoreChildren(kp.derivedFrom, details);
      }
    }

    static predicate IsProfile(s: Store, p: KeyUID) {
      KeypairLive(s, p) && s.keypairs[p].kind == Profile
    }

    /** There is a profile keypair and the password check against it can pass. */
    static predicate ProfileLoadable(s: Store) {
      && (exists p | p in s.keypairs :: IsProfile(s, p))
      && (forall p | p in s.keypairs && IsProfile(s, p) :: HasKeycard(s, p) || s.keypairs[p].derivedFrom in s.files)
    }

    /** MigrateNonProfileKeycardKeypairToApp: store every key, then forget the keycards. */
    method MigrateNonProfileKeycardKeypairToApp(u: KeyUID) returns (r: Outcome)
      modifies this`store
      ensures Step(old(store), MigrateToApp(u), r.Ok?, store)
      ensures (reliable && persistenceSet && keystoreOpen && KeypairLive(old(store), u) && HasKeycard(old(store), u) &&
              old(store).keypairs[u].kind != Profile && ProfileLoadable(old(store))) ==> r.Ok?
      ensures KeypairLive(old(store), u) && old(store).keypairs[u].kind == Profile ==> r.Err? && store == old(store)
    {
      if !persistenceSet { return Err(PersistenceMissing); }
      var fails := CallFails();
      if fails { return Err(CallFailed); }
      if !KeypairLive(store, u) { return Err(KeypairNotFound); }
      if store.keypairs[u].kind == Profile { return Err(CannotMigrateProfileKeypair); }
      if !HasKeycard(store, u) { return Err(KeypairIsNotKeycard); }
      if !exists p | p in store.keypairs :: IsProfile(store, p) { return Err(ProfileKeypairMissing); }
      var p :| p in store.keypairs && IsProfile(store, p);
      if !HasKeycard(store, p) {
        r := LoadAccount(store.keypairs[p].derivedFrom);
        if r.Err? { return; }
      }
      var derived := set a | a in LiveAccounts(store, u) :: Derived(u, store.accounts[a].path);
      r := StoreKeystoreFiles(Master(u), derived, true);
      assert {Master(u)} + derived == MnemonicFiles(old(store), u);
      if r.Err? { return; }
      fails := CallFails();
      if fails { return Err(CallFailed); }
      store := DeleteKeycards(store, u);
    }

    /** SaveOrUpdateKeycard: save the row, then delete the files of a keypair that was not on a keycard. */
    method SaveOrUpdateKeycard(kc: KeycardUID, u: KeyUID, addresses: seq<Address>, password: string) returns (r: Outcome)
      modifies this`store
      ensures Step(old(store), SaveKeycard(kc, u, password != ""), r.Ok?, store)
      ensures (reliable && persistenceSet && addresses != [] && KeypairLive(old(store), u) &&
              (MovesToKeycard(old(store), u, password != "") ==> keystoreOpen)) ==> r.Ok?
      ensures addresses == [] ==> r == Err(KeycardDoesNotHaveAnyAccounts)
    {
      if addresses == [] { return Err(KeycardDoesNotHaveAnyAccounts); }
      if !persistenceSet { return Err(PersistenceMissing); }
      var fails := CallFails();
      if fails { return Err(CallFailed); }
      if !KeypairLive(store, u) { return Err(KeypairNotFound); }
      var s := store;
      fails := CallFails();
      if fails { return Err(CallFailed); }
      store := SaveKeycardRow(store, kc, u);
      if !HasKeycard(s, u) && password != "" {
        r := DeleteKeypairFiles(s, u, password);
        if r.Err? { return; }
        fails := CallFails();
        if fails { return Err(CallFailed); }
        assert LiveAccounts(store, u) == LiveAccounts(SaveKeycardRow(s, kc, u), u);
        store := MarkKeypairOperable(store, u);
      }
      return Ok(());
    }

    /** DeleteAccount: delete the file, then flag the row. */
    method DeleteAccountByAddress(a: Address, password: string) returns (r: Outcome)
      modifies this`store
      ensures Step(old(store), DeleteAccount(a), r.Ok?, store)
      ensures (reliable && persistenceSet && AccountLive(old(store), a) &&
              !old(store).accounts[a].chat && !old(store).accounts[a].wallet &&
              FilesDeletable(old(store), a, password, keystoreOpen)) ==> r.Ok?
      ensures AccountLive(old(store), a) && (old(store).accounts[a].chat || old(store).accounts[a].wallet) ==>
                r.Err? && store == old(store)
    {
      if !persistenceSet { return Err(PersistenceMissing); }
      var fails := CallFails();
      if fails { return Err(CallFailed); }
      if !AccountLive(store, a) { return Err(AccountNotFound); }
      if store.accounts[a].chat || store.accounts[a].wallet { return Err(CannotRemoveDefaultAccount); }
      r := DeleteAccountFile(a, password);
      if r.Err? { return; }
      fails := CallFails();
      if fails { return Err(CallFailed); }
      ghost var mid := store;
      store := RemoveAccount(store, a);
      RemoveIgnoresFiles(old(store), a, mid.files);
    }

    static lemma RemoveIgnoresFiles(s: Store, a: Address, files: set<Address>)
      requires a in s.accounts
      ensures RemoveAccount(s.(files := files), a) == RemoveAccount(s, a).(files := files)
    {
      match s.accounts[a].keyUID
      case Some(u) => assert LiveAccounts(s.(files := files), u) == LiveAccounts(s, u);
      case None =>
    }

    /** DeleteKeypair */
    method DeleteKeypairByUID(u: KeyUID, password: string) returns (r: Outcome)
      modifies this`store
      ensures Step(old(store), DeleteKeypair(u), r.Ok?, store)
      ensures (reliable && password != "" && persistenceSet && KeypairLive(old(store), u) &&
              old(store).keypairs[u].kind != Profile && (HasKeycard(old(store), u) || keystoreOpen)) ==> r.Ok?
      ensures password == "" ==> r == Err(NoPasswordProvided) && store == old(store)
      ensures KeypairLive(old(store), u) && old(store).keypairs[u].kind == Profile ==> r.Err? && store == old(store)
    {
      if password == "" { return Err(NoPasswordProvided); }
      if !persistenceSet { return Err(PersistenceMissing); }
      var fails := CallFails();
      if fails { return Err(CallFailed); }
      if !KeypairLive(store, u) { return Err(KeypairNotFound); }
      if store.keypairs[u].kind == Profile { return Err(CannotRemoveProfileKeypair); }
      r := DeleteKeypairFiles(store, u, password);
      if r.Err? { return; }
      fails := CallFails();
      if fails { return Err(CallFailed); }
      assert LiveAccounts(store, u) == LiveAccounts(old(store), u);
      store := RemoveKeypair(store, u);
    }

    /** CleanKeystoreFiles */
    method CleanKeystoreFiles(password: string) returns (r: Outcome)
      modifies this`store
      ensures Step(old(store), CleanFiles, r.Ok?, store)
      ensures reliable && password != "" && persistenceSet && keystoreOpen ==> r.Ok?
      ensures password == "" ==> r == Err(NoPasswordProvided) && store == old(store)
    {
      if password == "" { return Err(NoPasswordProvided); }
      if !persistenceSet { return Err(PersistenceMissing); }
      var fails := CallFails();
      if fails { return Err(CallFailed); }
      var s := store;
      var todo := s.keypairs.Keys;
      while todo != {}
        invariant todo <= s.keypairs.Keys
        invariant store == s.(files := s.files - Garbage(s, s.keypairs.Keys - todo))
        decreases todo
      {
        var u :| u in todo;
        ghost var done := s.keypairs.Keys - todo;
        todo := todo - {u};
        assert s.keypairs.Keys - todo == done + {u};
        GarbageGrows(s, done, u);
        GarbageGrows(s, s.keypairs.Keys, u);
        assert Garbage(s, done + {u}) <= Garbage(s, s.keypairs.Keys);
        if HasKeycard(s, u) || s.keypairs[u].removed {
          r := DeleteFiles(AllAccounts(s, u));
          if r.Err? { return; }
          r := DeleteFileIfExists(s.keypairs[u].derivedFrom);
          if r.Err? { return; }
        } else {
          r := DeleteFiles(set a | a in AllAccounts(s, u) && s.accounts[a].removed);
          if r.Err? { return; }
        }
      }
      assert s.keypairs.Keys - todo == s.keypairs.Keys;
      return Ok(());
    }

    static lemma GarbageGrows(s: Store, done: set<KeyUID>, u: KeyUID)
      requires done <= s.keypairs.Keys && u in s.keypairs
      ensures Garbage(s, done + {u}) == Garbage(s, done) + KeypairGarbage(s, u)
    {
    }

    // -------------------------------------------------------------------------
    // Session
    // -------------------------------------------------------------------------

    /** Logout clears the session; the stores stay as they are. */
    method Logout()
      modifies this`keystoreOpen, this`persistenceSet, this`selectedChatAccount, this`profileKeyUID
      ensures !keystoreOpen && !persistenceSet && selectedChatAccount == None && profileKeyUID == ""
    {
      keystoreOpen, persistenceSet, selectedChatAccount, profileKeyUID := false, false, None, "";
    }
  }
}
