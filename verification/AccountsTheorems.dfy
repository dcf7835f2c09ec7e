/**
 The accounts manager over whole runs: keystore coverage, the exact conditions under which single
 operations lose it, profile safety, and what cleaning the keystore removes.
 */
module AccountsTheorems {
  import opened Wrappers
  import opened AccountsStore
  import opened AccountsRuns
  import opened AccountsCoverage

  datatype Event = Event(op: Op, ok: bool)

  /** states[i] is the pair of stores before events[i]. */
  ghost predicate Run(states: seq<Store>, events: seq<Event>) {
    && |states| == |events| + 1
    && forall i | 0 <= i < |events| :: Step(states[i], events[i].op, events[i].ok, states[i + 1])
  }

  ghost function Exempt(events: seq<Event>): set<KeyUID> {
    if events == [] then {}
    else var last := events[|events| - 1]; NextExempt(Exempt(events[..|events| - 1]), last.op, last.ok)
  }

  predicate Opens(e: Event, u: KeyUID) {
    e.ok && e.op.AddStoredToKeycard? && e.op.u == u
  }

  predicate Closes(e: Event, u: KeyUID) {
    && e.ok
    && (e.op.SaveKeycard? || e.op.CreateFromMnemonic? || e.op.CreateFromPrivateKey? || e.op.MakeSeedOperable?)
    && e.op.u == u
  }

  ghost predicate OpenAt(events: seq<Event>, u: KeyUID, j: int) {
    0 <= j < |events| && Opens(events[j], u) && forall k | j < k < |events| :: !Closes(events[k], u)
  }

  /** A keypair is exempt exactly between being added from a keycard and its keycard being saved. */
  lemma {:induction false} ExemptIsWindow(events: seq<Event>, u: KeyUID)
    ensures u in Exempt(events) <==> exists j :: OpenAt(events, u, j)
  {
    if events != [] {
      var n := |events| - 1;
      var init, last := events[..n], events[n];
      ExemptIsWindow(init, u);
      if Opens(last, u) {
        assert OpenAt(events, u, n);
      } else if u in Exempt(events) {
        var j :| OpenAt(init, u, j);
        assert OpenAt(events, u, j);
      } else if exists j :: OpenAt(events, u, j) {
        var j :| OpenAt(events, u, j);
        assert OpenAt(init, u, j);
      }
    }
  }

  /** Callers hand in honest data, and an operation succeeds or fails only where that cannot lose coverage. */
  ghost predicate Cooperative(states: seq<Store>, events: seq<Event>)
    requires |states| == |events| + 1
  {
    forall i | 0 <= i < |events| ::
      && HonestDetails(states[i], events[i].op)
      && (if events[i].ok then KeepsOnSuccess(states[i], Exempt(events[..i]), events[i].op)
          else !MayLose(states[i], Exempt(events[..i]), events[i].op))
  }

  /** Coverage of every state of a run. */
  lemma {:induction false} RunKeepsCoverage(states: seq<Store>, events: seq<Event>, n: nat)
    requires Run(states, events) && Cooperative(states, events) && n <= |events|
    requires Wf(states[0]) && Coverage(states[0], {})
    ensures Wf(states[n]) && Coverage(states[n], Exempt(events[..n]))
  {
    if n > 0 {
      RunKeepsCoverage(states, events, n - 1);
      var e, exempt := events[n - 1], Exempt(events[..n - 1]);
      assert events[..n][..n - 1] == events[..n - 1];
      StepKeepsWf(states[n - 1], e.op, e.ok, states[n]);
      if e.ok {
        SuccessKeepsExactly(states[n - 1], exempt, e.op, states[n]);
      } else {
        FailureKeepsCoverage(states[n - 1], exempt, e.op, states[n]);
      }
    }
  }

  // ---------------------------------------------------------------------------
  // States that lose coverage
  // ---------------------------------------------------------------------------

  /** A seed keypair synced from another device: its wallet account is not operable and has no file. */
  function SyncedSeed(): Store {
    Store(map["k" := Keypair(Seed, Master("k"), false)],
          map[Derived("k", "m/44'/0") := Account(Some("k"), "m/44'/0", false, false, NonOperable, false)],
          map[], {})
  }

  lemma PrivateKeyOperableLosesCoverage()
    ensures var s := SyncedSeed();
            var s' := MarkKeypairOperable(s, "k").(files := {Master("k")});
            && Wf(s) && Coverage(s, {}) && Step(s, MakePrivateKeyOperable("k"), true, s')
            && !Coverage(s', {})
  {
    var s := SyncedSeed();
    var s' := MarkKeypairOperable(s, "k").(files := {Master("k")});
    var a := Derived("k", "m/44'/0");
    assert forall b :: WfAccount(s, b);
    assert forall u :: WfKeypair(s, u);
    assert a in LiveAccounts(s, "k");
    assert s'.accounts[a].operable == FullyOperable;
    assert Derived("k", "m/44'/0") != Master("k") by { assert |"m/44'/0"| != |PATH_MASTER|; }
    assert NeedsFile(s', {}, a) && a !in s'.files;
  }

  /** Two operable seed keypairs; the keycard "c" already belongs to the first. */
  function TwoSeeds(): Store {
    var row := (u: KeyUID) => Account(Some(u), PATH_MASTER, false, false, FullyOperable, false);
    Store(map["j" := Keypair(Seed, Master("j"), false), "k" := Keypair(Seed, Master("k"), false)],
          map[Master("j") := row("j"), Master("k") := row("k")],
          map["c" := "j"], {Master("k")})
  }

  lemma SaveKeycardLosesCoverage()
    ensures var s := TwoSeeds();
            var s' := MarkKeypairOperable(s, "k").(files := s.files - KeypairFiles(s, "k"));
            && Wf(s) && Coverage(s, {}) && Step(s, SaveKeycard("c", "k", true), true, s')
            && !Coverage(s', {})
  {
    var s := TwoSeeds();
    var s' := MarkKeypairOperable(s, "k").(files := s.files - KeypairFiles(s, "k"));
    assert s.keycards["c"] == "j";
    assert HasKeycard(s, "j") && !HasKeycard(s, "k");
    assert forall b :: WfAccount(s, b);
    assert forall u :: WfKeypair(s, u);
    assert Master("k") in LiveAccounts(s, "k");
    assert NeedsFile(s', {}, Master("k")) && Master("k") !in s'.files;
  }

  /** Without a password, such a save ends the exemption of a keypair that came from a keycard, and nothing else. */
  lemma PasswordlessSaveLosesCoverage()
    ensures var s := TwoSeeds().(files := {});
            Wf(s) && Coverage(s, {"k"}) && Step(s, SaveKeycard("c", "k", false), true, s) && !Coverage(s, {})
  {
    var s := TwoSeeds().(files := {});
    assert s.keycards["c"] == "j";
    assert HasKeycard(s, "j") && !HasKeycard(s, "k");
    assert forall b :: WfAccount(s, b);
    assert forall u :: WfKeypair(s, u);
    assert NeedsFile(s, {}, Master("k"));
  }

  /** And a save that fails halfway can lose the file just as well. */
  lemma FailedSaveKeycardLosesCoverage() returns (s': Store)
    ensures Wf(TwoSeeds()) && Coverage(TwoSeeds(), {}) && Loses(TwoSeeds(), {}, SaveKeycard("c", "k", true), s')
  {
    SaveKeycardLosesCoverage();
    var s := TwoSeeds();
    assert s.keycards["c"] == "j";
    assert HasKeycard(s, "j") && !HasKeycard(s, "k");
    assert NeedsFile(s, {}, Master("k")) && Owned(s, "k", Master("k"));
    s' := LosingStep(s, {}, SaveKeycard("c", "k", true));
  }

  /** A seed keypair whose master key is its only account. */
  function OneSeed(): Store {
    Store(map["k" := Keypair(Seed, Master("k"), false)],
          map[Master("k") := Account(Some("k"), PATH_MASTER, false, false, FullyOperable, false)],
          map[], {Master("k")})
  }

  function NewAccount(): Details {
    Details(Derived("k", "m/44'/0"), Account(Some("k"), "m/44'/0", false, false, FullyOperable, false))
  }

  lemma OneSeedIsCovered()
    ensures Wf(OneSeed()) && Coverage(OneSeed(), {})
  {
    var s := OneSeed();
    assert forall b :: WfAccount(s, b);
    assert forall u :: WfKeypair(s, u);
  }

  /** From that one state, each of five operations that do not fail safely can lose coverage. */
  lemma FailuresLoseCoverage(op: Op) returns (s': Store)
    requires op in {DeleteAccount(Master("k")), DeleteKeypair("k"), AddAccounts("k", [NewAccount()]),
                    CreateFromPrivateKey("j"), CreateFromMnemonic("j", "m/44'/0", false)}
    ensures Wf(OneSeed()) && Coverage(OneSeed(), {}) && Loses(OneSeed(), {}, op, s')
  {
    OneSeedIsCovered();
    var s := OneSeed();
    if op.DeleteAccount? || op.DeleteKeypair? {
      assert NeedsFile(s, {}, Master("k")) && Owned(s, "k", Master("k"));
    } else if op.AddAccounts? {
      NewAccountMayLose();
    } else {
      CreationMayLose(op);
    }
    s' := LosingStep(s, {}, op);
  }

  lemma NewAccountMayLose()
    ensures MayLose(OneSeed(), {}, AddAccounts("k", [NewAccount()]))
  {
    var s, d := OneSeed(), NewAccount();
    var ds := [d];
    assert |d.row.path| != |PATH_MASTER|;
    assert ds[..0] == [];
    assert UpsertAll(s, ds) == UpsertAccount(UpsertAll(s, []), d);
    assert ds[0].address == d.address;
    assert d.address in Addresses(ds) && d.address !in s.files && NeedsFile(UpsertAll(s, ds), {}, d.address);
  }

  lemma CreationMayLose(op: Op)
    requires op == CreateFromPrivateKey("j") || op == CreateFromMnemonic("j", "m/44'/0", false)
    ensures MayLose(OneSeed(), {}, op)
  {
    var s, ds := OneSeed(), CreatedDetails(op);
    var a := ds[0].address;
    assert a.owner == "j" && "j" != "k";
    assert a in Addresses(ds) && a !in s.files && BecomesOwn(s, a);
  }

  // ---------------------------------------------------------------------------
  // Profile safety
  // ---------------------------------------------------------------------------

  ghost predicate LiveDefault(s: Store, u: KeyUID, a: Address) {
    Owned(s, u, a) && !s.accounts[a].removed && a != Master(u)
  }

  /** The rows of the profile keypair u, its chat account c and its default wallet account w. */
  ghost predicate ProfileRows(s: Store, u: KeyUID, c: Address, w: Address) {
    && KeypairLive(s, u) && s.keypairs[u].kind == Profile
    && c != w && LiveDefault(s, u, c) && LiveDefault(s, u, w)
    && s.accounts[c].chat && s.accounts[w].wallet
  }

  /** Their files, until the profile is on a keycard. */
  ghost predicate ProfileFiles(s: Store, u: KeyUID, c: Address, w: Address) {
    HasKeycard(s, u) || ({c, w} <= s.files && (Master(u) in s.files || Master(u) in s.accounts))
  }

  ghost predicate ProfileSafe(s: Store, u: KeyUID, c: Address, w: Address) {
    ProfileRows(s, u, c, w) && ProfileFiles(s, u, c, w)
  }

  /** Accounts added to a keycard keypair have fresh addresses. */
  predicate FreshDetails(s: Store, op: Op) {
    op.AddAccounts? && HasKeycard(s, op.u) ==> Addresses(op.details) !! s.accounts.Keys
  }

  predicate GoodOp(s: Store, op: Op) {
    HonestDetails(s, op) && FreshDetails(s, op)
  }

  /** Saving a keycard whose uid is filed under another key uid takes files of the profile. */
  predicate Strands(s: Store, op: Op, u: KeyUID, c: Address, w: Address) {
    && op.SaveKeycard? && op.u == u && Collides(s, op.kc, u, op.withPassword)
    && !({c, w} !! KeypairFiles(s, u) && (Master(u) !in KeypairFiles(s, u) || Master(u) in s.accounts))
  }

  /** What a step leaves of the rows. */
  ghost predicate Carried(s: Store, s': Store, u: KeyUID, c: Address, w: Address) {
    && ProfileRows(s', u, c, w)
    && (HasKeycard(s, u) ==> HasKeycard(s', u)) && (Master(u) in s.accounts ==> Master(u) in s'.accounts)
  }

  /** And of the files. */
  ghost predicate FilesCarried(s: Store, s': Store, u: KeyUID, c: Address, w: Address) {
    !HasKeycard(s', u) ==>
      && (forall a | a in {c, w} && a in s.files :: a in s'.files)
      && (Master(u) in s.files ==> Master(u) in s'.files || Master(u) in s.accounts)
  }

  lemma CarriedIsSafe(s: Store, s': Store, u: KeyUID, c: Address, w: Address)
    requires ProfileSafe(s, u, c, w) && Carried(s, s', u, c, w) && FilesCarried(s, s', u, c, w)
    ensures ProfileSafe(s', u, c, w)
  {
  }

  lemma ProfileCarriesOver(s: Store, u: KeyUID, c: Address, w: Address, s': Store)
    requires ProfileRows(s, u, c, w)
    requires KeypairLive(s', u) && s'.keypairs[u].kind == Profile
    requires forall a | a in {c, w} :: a in s'.accounts && SameIdentity(s'.accounts[a], s.accounts[a]) && !s'.accounts[a].removed
    requires Master(u) in s.accounts ==> Master(u) in s'.accounts
    requires HasKeycard(s', u) || !HasKeycard(s, u)
    ensures Carried(s, s', u, c, w)
  {
  }

  lemma SavedKeypairKeepsProfile(s: Store, v: KeyUID, kind: KeypairKind, derivedFrom: Address, ds: seq<Details>,
                                 s': Store, u: KeyUID, c: Address, w: Address)
    requires Wf(s) && ProfileRows(s, u, c, w) && !KeypairLive(s, v) && DetailsDerived(v, ds)
    requires s'.(files := {}) == UpsertAll(KeypairSaved(s, v, kind, derivedFrom), ds).(files := {})
    requires s.files <= s'.files
    ensures Carried(s, s', u, c, w) && FilesCarried(s, s', u, c, w)
  {
    UpsertAllFacts(KeypairSaved(s, v, kind, derivedFrom), ds);
    assert WfAccount(s, c) && WfAccount(s, w) && WfAccount(s, Master(u));
    ProfileCarriesOver(s, u, c, w, s');
  }

  lemma CreateKeepsProfile(s: Store, op: Op, files: set<Address>, ok: bool, s': Store, u: KeyUID, c: Address, w: Address)
    requires op.CreateFromMnemonic? || op.CreateFromPrivateKey?
    requires Wf(s) && ProfileRows(s, u, c, w) && CreateStep(s, op, files, ok, s')
    ensures Carried(s, s', u, c, w) && FilesCarried(s, s', u, c, w)
  {
    if ok || s' != s {
      if op.CreateFromMnemonic? {
        SavedKeypairKeepsProfile(s, op.u, MnemonicKind(op.profile), Master(op.u),
                                 MnemonicDetails(op.u, op.walletPath, op.profile), s', u, c, w);
      } else {
        SavedKeypairKeepsProfile(s, op.u, PrivateKey, NoAddress, PrivateKeyDetails(op.u), s', u, c, w);
      }
    }
  }

  lemma AddStoredKeepsProfile(s: Store, v: KeyUID, master: Address, ds: seq<Details>, ok: bool, s': Store,
                              u: KeyUID, c: Address, w: Address)
    requires Wf(s) && ProfileRows(s, u, c, w)
    requires Step(s, AddStoredToKeycard(v, master, ds), ok, s') && GoodOp(s, AddStoredToKeycard(v, master, ds))
    ensures Carried(s, s', u, c, w) && FilesCarried(s, s', u, c, w)
  {
    if ok {
      UpsertAllFacts(KeypairSaved(s, v, Seed, master), ds);
      SavedKeypairKeepsProfile(s, v, Seed, master, ds, s', u, c, w);
    }
  }

  lemma AddAccountsKeepsProfile(s: Store, v: KeyUID, ds: seq<Details>, ok: bool, s': Store,
                                u: KeyUID, c: Address, w: Address)
    requires Wf(s) && ProfileRows(s, u, c, w)
    requires AddAccountsStep(s, v, ds, ok, s') && GoodOp(s, AddAccounts(v, ds))
    ensures Carried(s, s', u, c, w) && FilesCarried(s, s', u, c, w)
  {
    if ok || s' != s {
      UpsertAllFacts(s, ds);
      AddedDetailsDerived(s, v, ds);
      assert WfAccount(s, c) && WfAccount(s, w);
      assert c !in Addresses(ds) && w !in Addresses(ds);
      ProfileCarriesOver(s, u, c, w, s');
    }
  }

  lemma SaveKeycardKeepsRows(s: Store, op: Op, ok: bool, s': Store, u: KeyUID, c: Address, w: Address)
    requires op.SaveKeycard? && Wf(s) && ProfileRows(s, u, c, w) && Step(s, op, ok, s')
    ensures Carried(s, s', u, c, w)
  {
    if ok || s' != s {
      KeycardRowAdded(s, op.kc, op.u, u);
      ProfileCarriesOver(s, u, c, w, s');
    }
  }

  lemma SaveKeycardKeepsFiles(s: Store, op: Op, ok: bool, s': Store, u: KeyUID, c: Address, w: Address)
    requires op.SaveKeycard? && Wf(s) && ProfileRows(s, u, c, w) && Step(s, op, ok, s') && !Strands(s, op, u, c, w)
    ensures FilesCarried(s, s', u, c, w)
  {
    if ok || s' != s {
      KeycardRowAdded(s, op.kc, op.u, u);
      assert WfAccount(s, c) && WfAccount(s, w) && WfAccount(s, Master(u)) && WfKeypair(s, op.u);
      if op.kc in s.keycards && s.keycards[op.kc] == op.u { assert HasKeycard(s, op.u); }
    }
  }

  /** The last-account test of DeleteAccount cannot hold for the profile. */
  lemma DeleteAccountSparesProfile(s: Store, a: Address, u: KeyUID, c: Address, w: Address)
    requires Wf(s) && ProfileRows(s, u, c, w)
    requires AccountLive(s, a) && !s.accounts[a].chat && !s.accounts[a].wallet
    ensures c !in AccountFiles(s, a) && w !in AccountFiles(s, a)
    ensures Owned(s, u, a) ==> |LiveAccounts(s, u)| >= 2 && !(LiveAccounts(s, u) <= {a})
    ensures Owned(s, u, a) ==> (Master(u) in AccountFiles(s, a) ==> a == Master(u))
    ensures Master(u) in AccountFiles(s, a) ==> Master(u) in s.accounts
  {
    assert {c, w} <= LiveAccounts(s, u);
    assert |{c, w}| == 2;
    CardinalityMonotone({c, w}, LiveAccounts(s, u));
    forall b | b in {c, w} && b in AccountFiles(s, a) ensures b == a { AccountFilesOwned(s, a, b); }
    assert WfAccount(s, a);
    if s.accounts[a].keyUID.Some? { assert WfKeypair(s, s.accounts[a].keyUID.value); }
  }

  lemma {:induction false} CardinalityMonotone<T>(xs: set<T>, ys: set<T>)
    requires xs <= ys
    ensures |xs| <= |ys|
  {
    assert ys == xs + (ys - xs);
  }

  /** Removing an account leaves the profile's rows alone. */
  lemma RemoveAccountKeepsRows(s: Store, a: Address, u: KeyUID, c: Address, w: Address)
    requires Wf(s) && ProfileRows(s, u, c, w)
    requires AccountLive(s, a) && !s.accounts[a].chat && !s.accounts[a].wallet
    ensures var t := RemoveAccount(s, a);
            && u in t.keypairs && t.keypairs[u] == s.keypairs[u] && (HasKeycard(t, u) <==> HasKeycard(s, u))
            && t.accounts.Keys == s.accounts.Keys && t.accounts[c] == s.accounts[c] && t.accounts[w] == s.accounts[w]
  {
    DeleteAccountSparesProfile(s, a, u, c, w);
    if s.accounts[a].keyUID.Some? && s.accounts[a].keyUID.value != u {
      var v := s.accounts[a].keyUID.value;
      KeycardsOfOthers(FlagRemoved(s, LiveAccounts(s, v)), v, u);
    }
  }

  lemma DeleteAccountKeepsProfile(s: Store, a: Address, ok: bool, s': Store, u: KeyUID, c: Address, w: Address)
    requires Wf(s) && ProfileRows(s, u, c, w) && DeleteAccountStep(s, a, ok, s')
    ensures Carried(s, s', u, c, w) && FilesCarried(s, s', u, c, w)
  {
    if ok || s' != s {
      DeleteAccountSparesProfile(s, a, u, c, w);
      RemoveAccountKeepsRows(s, a, u, c, w);
      ProfileCarriesOver(s, u, c, w, s');
    }
  }

  lemma DeleteKeypairKeepsProfile(s: Store, v: KeyUID, ok: bool, s': Store, u: KeyUID, c: Address, w: Address)
    requires Wf(s) && ProfileRows(s, u, c, w) && DeleteKeypairStep(s, v, ok, s')
    ensures Carried(s, s', u, c, w) && FilesCarried(s, s', u, c, w)
  {
    if ok || s' != s {
      KeycardsOfOthers(FlagRemoved(s, LiveAccounts(s, v)), v, u);
      assert WfAccount(s, c) && WfAccount(s, w) && WfAccount(s, Master(u)) && WfKeypair(s, v);
      ProfileCarriesOver(s, u, c, w, s');
    }
  }

  lemma CleanKeepsProfile(s: Store, ok: bool, s': Store, u: KeyUID, c: Address, w: Address)
    requires Wf(s) && ProfileRows(s, u, c, w) && CleanStep(s, ok, s')
    ensures Carried(s, s', u, c, w) && FilesCarried(s, s', u, c, w)
  {
    if !HasKeycard(s, u) {
      assert WfAccount(s, c) && WfAccount(s, w) && WfAccount(s, Master(u));
      forall v | v in s.keypairs
        ensures c !in KeypairGarbage(s, v) && w !in KeypairGarbage(s, v)
        ensures Master(u) in KeypairGarbage(s, v) ==> Master(u) in s.accounts
      {
        assert WfKeypair(s, v);
      }
    }
    ProfileCarriesOver(s, u, c, w, s');
  }

  lemma MigrateKeepsProfile(s: Store, v: KeyUID, ok: bool, s': Store, u: KeyUID, c: Address, w: Address)
    requires ProfileRows(s, u, c, w) && MigrateStep(s, v, ok, s')
    ensures Carried(s, s', u, c, w) && FilesCarried(s, s', u, c, w)
  {
    if ok { KeycardsOfOthers(s, v, u); }
    ProfileCarriesOver(s, u, c, w, s');
  }

  /** One operation, whether it succeeds or fails anywhere: the rows stay, and the files unless it strands the profile. */
  lemma StepCarriesProfile(s: Store, op: Op, ok: bool, s': Store, u: KeyUID, c: Address, w: Address)
    requires Wf(s) && ProfileRows(s, u, c, w) && Step(s, op, ok, s') && GoodOp(s, op)
    ensures Carried(s, s', u, c, w)
    ensures !Strands(s, op, u, c, w) ==> FilesCarried(s, s', u, c, w)
  {
    match op
    case CreateFromMnemonic(v, walletPath, profile) =>
      CreateKeepsProfile(s, op, CreatedFiles(v, walletPath, profile), ok, s', u, c, w);
    case AddStoredToKeycard(v, master, ds) => AddStoredKeepsProfile(s, v, master, ds, ok, s', u, c, w);
    case CreateFromPrivateKey(v) => CreateKeepsProfile(s, op, {Master(v)}, ok, s', u, c, w);
    case MakeSeedOperable(v) => ProfileCarriesOver(s, u, c, w, s');
    case MakePrivateKeyOperable(v) => ProfileCarriesOver(s, u, c, w, s');
    case MakePartiallyOperable => ProfileCarriesOver(s, u, c, w, s');
    case AddAccounts(v, ds) => AddAccountsKeepsProfile(s, v, ds, ok, s', u, c, w);
    case MigrateToApp(v) => MigrateKeepsProfile(s, v, ok, s', u, c, w);
    case SaveKeycard(kc, v, withPassword) =>
      SaveKeycardKeepsRows(s, op, ok, s', u, c, w);
      if !Strands(s, op, u, c, w) { SaveKeycardKeepsFiles(s, op, ok, s', u, c, w); }
    case DeleteAccount(a) => DeleteAccountKeepsProfile(s, a, ok, s', u, c, w);
    case DeleteKeypair(v) => DeleteKeypairKeepsProfile(s, v, ok, s', u, c, w);
    case CleanFiles => CleanKeepsProfile(s, ok, s', u, c, w);
  }

  /** Profile safety over one operation. */
  lemma StepKeepsProfile(s: Store, op: Op, ok: bool, s': Store, u: KeyUID, c: Address, w: Address)
    requires Wf(s) && ProfileSafe(s, u, c, w) && Step(s, op, ok, s') && GoodOp(s, op) && !Strands(s, op, u, c, w)
    ensures ProfileSafe(s', u, c, w)
  {
    StepCarriesProfile(s, op, ok, s', u, c, w);
    CarriedIsSafe(s, s', u, c, w);
  }

  /** An operation that succeeds keeps the profile safe exactly when it does not strand it. */
  lemma ProfileLostExactly(s: Store, op: Op, s': Store, u: KeyUID, c: Address, w: Address)
    requires Wf(s) && ProfileSafe(s, u, c, w) && Step(s, op, true, s') && GoodOp(s, op)
    ensures ProfileSafe(s', u, c, w) <==> !Strands(s, op, u, c, w)
  {
    if Strands(s, op, u, c, w) {
      KeycardRowAdded(s, op.kc, u, u);
      assert !HasKeycard(s', u) && s'.files == s.files - KeypairFiles(s, u) && s'.accounts.Keys == s.accounts.Keys;
    } else {
      StepKeepsProfile(s, op, true, s', u, c, w);
    }
  }

  /** From every safe state off keycards: saving a keycard that is filed under another key uid leaves the profile without its files. */
  lemma KeycardStrandsProfile(s: Store, kc: KeycardUID, u: KeyUID, c: Address, w: Address) returns (s': Store)
    requires Wf(s) && ProfileSafe(s, u, c, w) && s.keypairs[u].derivedFrom == Master(u)
    requires !HasKeycard(s, u) && kc in s.keycards && s.accounts[c].operable == FullyOperable
    ensures Step(s, SaveKeycard(kc, u, true), true, s') && GoodOp(s, SaveKeycard(kc, u, true))
    ensures !HasKeycard(s', u) && c !in s'.files && Master(u) !in s'.files && !ProfileSafe(s', u, c, w)
  {
    s' := MarkKeypairOperable(s, u).(files := s.files - KeypairFiles(s, u));
    assert s.keycards[kc] in s.keycards.Values;
    assert c in LiveAccounts(s, u) && {c, Master(u)} <= KeypairFiles(s, u);
  }

  /** Over every run, failed operations included, the profile's rows are never removed. */
  lemma {:induction false} RunKeepsProfileRows(states: seq<Store>, events: seq<Event>, n: nat, u: KeyUID, c: Address, w: Address)
    requires Run(states, events) && n <= |events|
    requires forall i | 0 <= i < |events| :: GoodOp(states[i], events[i].op)
    requires Wf(states[0]) && ProfileRows(states[0], u, c, w)
    ensures Wf(states[n]) && ProfileRows(states[n], u, c, w)
  {
    if n > 0 {
      RunKeepsProfileRows(states, events, n - 1, u, c, w);
      var e := events[n - 1];
      StepKeepsWf(states[n - 1], e.op, e.ok, states[n]);
      StepCarriesProfile(states[n - 1], e.op, e.ok, states[n], u, c, w);
    }
  }

  /** And its files stay until it is on a keycard, if no operation strands it. */
  lemma {:induction false} RunKeepsProfile(states: seq<Store>, events: seq<Event>, n: nat, u: KeyUID, c: Address, w: Address)
    requires Run(states, events) && n <= |events|
    requires forall i | 0 <= i < |events| :: GoodOp(states[i], events[i].op) && !Strands(states[i], events[i].op, u, c, w)
    requires Wf(states[0]) && ProfileSafe(states[0], u, c, w)
    ensures Wf(states[n]) && ProfileSafe(states[n], u, c, w)
  {
    if n > 0 {
      RunKeepsProfile(states, events, n - 1, u, c, w);
      var e := events[n - 1];
      StepKeepsWf(states[n - 1], e.op, e.ok, states[n]);
      StepKeepsProfile(states[n - 1], e.op, e.ok, states[n], u, c, w);
    }
  }

  /** Creating the profile on a database that never saw its key uid makes it safe. */
  lemma CreateMakesProfileSafe(s: Store, u: KeyUID, walletPath: Path, s': Store)
    requires Wf(s) && Step(s, CreateFromMnemonic(u, walletPath, true), true, s')
    requires u !in s.keypairs && walletPath !in {PATH_CHAT, PATH_MASTER}
    requires Derived(u, PATH_CHAT) !in s.accounts && Derived(u, walletPath) !in s.accounts
    ensures ProfileSafe(s', u, Derived(u, PATH_CHAT), Derived(u, walletPath))
  {
    var ds := MnemonicDetails(u, walletPath, true);
    var mid := KeypairSaved(s, u, Profile, Master(u));
    assert |PATH_CHAT| != |PATH_MASTER|;
    assert ds[..1][..0] == [];
    assert UpsertAll(mid, ds[..1]) == UpsertAccount(mid, ds[0]);
    assert UpsertAll(mid, ds) == UpsertAccount(UpsertAll(mid, ds[..1]), ds[1]);
  }

  // ---------------------------------------------------------------------------
  // Cleaning the keystore
  // ---------------------------------------------------------------------------

  /** Why cleaning deletes the file of account row a. */
  predicate Obsolete(s: Store, a: Address) {
    && a in s.accounts && s.accounts[a].keyUID.Some?
    && var u := s.accounts[a].keyUID.value;
    u in s.keypairs && (HasKeycard(s, u) || s.keypairs[u].removed || s.accounts[a].removed)
  }

  predicate ObsoleteMaster(s: Store, u: KeyUID, a: Address) {
    u in s.keypairs && (HasKeycard(s, u) || s.keypairs[u].removed) && a == s.keypairs[u].derivedFrom
  }

  /** A successful clean removes exactly the obsolete files. */
  lemma CleanExact(s: Store, s': Store, a: Address)
    requires Step(s, CleanFiles, true, s')
    ensures a in s'.files <==> a in s.files && !Obsolete(s, a) && !exists u :: ObsoleteMaster(s, u, a)
  {
    if Obsolete(s, a) {
      assert a in KeypairGarbage(s, s.accounts[a].keyUID.value);
    }
    if exists u :: ObsoleteMaster(s, u, a) {
      var u :| ObsoleteMaster(s, u, a);
      assert a in KeypairGarbage(s, u);
    }
    if a in Garbage(s, s.keypairs.Keys) {
      var u :| u in s.keypairs && a in KeypairGarbage(s, u);
      if a !in AllAccounts(s, u) { assert ObsoleteMaster(s, u, a); }
    }
  }

  /** No clean, complete or broken off, loses the file of a live account or the master key of a live keypair. */
  lemma CleanKeepsLiveFiles(s: Store, ok: bool, s': Store, u: KeyUID)
    requires Wf(s) && Step(s, CleanFiles, ok, s') && KeypairLive(s, u) && !HasKeycard(s, u)
    ensures forall a | a in LiveAccounts(s, u) && a in s.files :: a in s'.files
    ensures Master(u) !in s.accounts && Master(u) in s.files ==> Master(u) in s'.files
  {
    forall a | a in LiveAccounts(s, u) || (a == Master(u) && a !in s.accounts)
      ensures a !in Garbage(s, s.keypairs.Keys)
    {
      assert WfAccount(s, a);
      forall v | v in s.keypairs ensures a !in KeypairGarbage(s, v) { assert WfKeypair(s, v); }
    }
  }
}
