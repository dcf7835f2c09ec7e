/**
 The two stores behind the accounts manager: the account database
 (multiaccounts/accounts/database.go, keycard_database.go) and the set of keystore files.

 Key material is symbolic.  A key uid names a master key and an address is the pair of the key uid it
 is derived from and its derivation path, so derivation never collides.  `NoAddress` is the zero
 address, which is what an empty `DerivedFrom` decodes to.
 */
module AccountsStore {
  import opened Wrappers

  type KeyUID = string
  type Path = string
  type KeycardUID = string

  datatype Address = NoAddress | Derived(owner: KeyUID, path: Path)

  datatype KeypairKind = Profile | PrivateKey | Seed
  datatype Operability = NonOperable | PartiallyOperable | FullyOperable

  datatype Keypair = Keypair(kind: KeypairKind, derivedFrom: Address, removed: bool)

  /** A row of keypairs_accounts; a watch-only account has no key uid. */
  datatype Account = Account(
    keyUID: Option<KeyUID>, path: Path, wallet: bool, chat: bool, operable: Operability, removed: bool)

  /** An account handed in by a caller: the row and the address it is stored under. */
  datatype Details = Details(address: Address, row: Account)

  datatype Store = Store(
    keypairs: map<KeyUID, Keypair>,
    accounts: map<Address, Account>,
    keycards: map<KeycardUID, KeyUID>,
    files: set<Address>)

  const PATH_MASTER: Path := "m"
  const PATH_CHAT: Path := "m/43'/60'/1581'/0'/0"
  const WALLET_PATH: Path := "m/44'"

  function Master(u: KeyUID): Address {
    Derived(u, PATH_MASTER)
  }

  /** The address derived along `path` from the key stored at `from`. */
  function Child(from: Address, path: Path): Address {
    match from
    case NoAddress => NoAddress
    case Derived(o, q) =>
      if q == PATH_MASTER then Derived(o, path) else if path == "" then from else Derived(o, q + path[1..])
  }

  // ---------------------------------------------------------------------------
  // What the database answers
  // ---------------------------------------------------------------------------

  predicate KeypairLive(s: Store, u: KeyUID) {
    u in s.keypairs && !s.keypairs[u].removed
  }

  /** MigratedToKeycard: at least one keycard row names the key uid. */
  predicate HasKeycard(s: Store, u: KeyUID) {
    u in s.keycards.Values
  }

  predicate AccountLive(s: Store, a: Address) {
    a in s.accounts && !s.accounts[a].removed
  }

  predicate Owned(s: Store, u: KeyUID, a: Address) {
    a in s.accounts && s.accounts[a].keyUID == Some(u)
  }

  /** The accounts GetKeypairByKeyUID returns: those not flagged as removed. */
  function LiveAccounts(s: Store, u: KeyUID): set<Address> {
    set a | a in s.accounts && Owned(s, u, a) && !s.accounts[a].removed
  }

  function AllAccounts(s: Store, u: KeyUID): set<Address> {
    set a | a in s.accounts && Owned(s, u, a)
  }

  // ---------------------------------------------------------------------------
  // Database statements
  // ---------------------------------------------------------------------------

  /** INSERT OR IGNORE followed by UPDATE: an existing row keeps its key uid, path and default flags. */
  function UpsertAccount(s: Store, d: Details): Store {
    var row := if d.address in s.accounts
               then s.accounts[d.address].(operable := d.row.operable, removed := d.row.removed)
               else d.row;
    s.(accounts := s.accounts[d.address := row])
  }

  function UpsertAll(s: Store, ds: seq<Details>): Store {
    if ds == [] then s else UpsertAccount(UpsertAll(s, ds[..|ds| - 1]), ds[|ds| - 1])
  }

  /** Every account that is not watch-only needs a keypair row. */
  predicate KeypairsKnown(s: Store, ds: seq<Details>) {
    forall i | 0 <= i < |ds| :: ds[i].row.keyUID.Some? ==> ds[i].row.keyUID.value in s.keypairs
  }

  function SaveAccounts(s: Store, ds: seq<Details>): Option<Store> {
    if ds == [] || !KeypairsKnown(s, ds) then None else Some(UpsertAll(s, ds))
  }

  /** The keypair row after INSERT OR IGNORE and UPDATE; a removed keypair first loses its old accounts. */
  function KeypairSaved(s: Store, u: KeyUID, kind: KeypairKind, derivedFrom: Address): Store {
    if u !in s.keypairs then
      s.(keypairs := s.keypairs[u := Keypair(kind, derivedFrom, false)])
    else
      var kept := if s.keypairs[u].removed then s.accounts - AllAccounts(s, u) else s.accounts;
      s.(keypairs := s.keypairs[u := s.keypairs[u].(removed := false)], accounts := kept)
  }

  function SaveKeypair(s: Store, u: KeyUID, kind: KeypairKind, derivedFrom: Address, ds: seq<Details>)
    : Option<Store>
  {
    if u !in s.keypairs && (ds == [] || exists i | 0 <= i < |ds| :: ds[i].row.keyUID != Some(u)) then
      None
    else
      var mid := KeypairSaved(s, u, kind, derivedFrom);
      if KeypairsKnown(mid, ds) then Some(UpsertAll(mid, ds)) else None
  }

  function MarkAccounts(s: Store, marked: set<Address>): Store {
    s.(accounts := map a | a in s.accounts ::
      if a in marked then s.accounts[a].(operable := FullyOperable) else s.accounts[a])
  }

  function MarkKeypairOperable(s: Store, u: KeyUID): Store {
    MarkAccounts(s, LiveAccounts(s, u))
  }

  function DeleteKeycards(s: Store, u: KeyUID): Store {
    s.(keycards := map k | k in s.keycards && s.keycards[k] != u :: s.keycards[k])
  }

  /** INSERT OR IGNORE on the keycard uid: a known keycard keeps the key uid it already has. */
  function SaveKeycardRow(s: Store, kc: KeycardUID, u: KeyUID): Store {
    if kc in s.keycards then s else s.(keycards := s.keycards[kc := u])
  }

  function FlagRemoved(s: Store, gone: set<Address>): Store {
    s.(accounts := map a | a in s.accounts ::
      if a in gone then s.accounts[a].(removed := true) else s.accounts[a])
  }

  function RemoveKeypair(s: Store, u: KeyUID): Store
    requires u in s.keypairs
  {
    var flagged := FlagRemoved(s, LiveAccounts(s, u));
    DeleteKeycards(flagged.(keypairs := flagged.keypairs[u := flagged.keypairs[u].(removed := true)]), u)
  }

  /** Removing the last live account of a keypair removes the keypair. */
  function RemoveAccount(s: Store, a: Address): Store
    requires a in s.accounts
  {
    match s.accounts[a].keyUID
    case Some(u) =>
      if KeypairLive(s, u) && LiveAccounts(s, u) <= {a} then RemoveKeypair(s, u) else FlagRemoved(s, {a})
    case None => FlagRemoved(s, {a})
  }

  // ---------------------------------------------------------------------------
  // Which files the manager stores and deletes
  // ---------------------------------------------------------------------------

  /** The files stored from a mnemonic: the master key and one key per live account path. */
  function MnemonicFiles(s: Store, u: KeyUID): set<Address> {
    {Master(u)} + set a | a in LiveAccounts(s, u) :: Derived(u, s.accounts[a].path)
  }

  /** The files deleteKeystoreFilesForKeypairInternally goes for. */
  function KeypairFiles(s: Store, u: KeyUID): set<Address>
    requires u in s.keypairs
  {
    var live := LiveAccounts(s, u);
    (set a | a in live && s.accounts[a].operable == FullyOperable) +
    (if s.keypairs[u].kind != PrivateKey && exists a | a in live :: s.accounts[a].operable != NonOperable
     then {s.keypairs[u].derivedFrom} else {})
  }

  /** The files deleteKeystoreFileForAccountInternally goes for. */
  function AccountFiles(s: Store, a: Address): set<Address>
    requires a in s.accounts
  {
    var acc := s.accounts[a];
    if acc.operable != FullyOperable || acc.keyUID.None? then {}
    else
      var u := acc.keyUID.value;
      if !KeypairLive(s, u) || HasKeycard(s, u) then {}
      else if s.keypairs[u].kind != PrivateKey && |LiveAccounts(s, u)| == 1 then
        {a, s.keypairs[u].derivedFrom}
      else {a}
  }

  /** The files CleanKeystoreFiles deletes on account of keypair u. */
  function KeypairGarbage(s: Store, u: KeyUID): set<Address>
    requires u in s.keypairs
  {
    if HasKeycard(s, u) || s.keypairs[u].removed then AllAccounts(s, u) + {s.keypairs[u].derivedFrom}
    else set a | a in AllAccounts(s, u) && s.accounts[a].removed
  }

  function Garbage(s: Store, us: set<KeyUID>): set<Address>
    requires us <= s.keypairs.Keys
  {
    set u, a | u in us && a in KeypairGarbage(s, u) :: a
  }

  /** The accounts MakePartiallyOperableAccoutsFullyOperable visits. */
  predicate Partial(s: Store, a: Address) {
    && AccountLive(s, a)
    && s.accounts[a].operable == PartiallyOperable
    && s.accounts[a].keyUID.Some?
    && KeypairLive(s, s.accounts[a].keyUID.value)
    && !HasKeycard(s, s.accounts[a].keyUID.value)
  }

  function Partials(s: Store): set<Address> {
    set a | a in s.accounts && Partial(s, a)
  }

  /** The file derived for a partially operable account. */
  function PartialFile(s: Store, a: Address): Address
    requires Partial(s, a)
  {
    Child(s.keypairs[s.accounts[a].keyUID.value].derivedFrom, s.accounts[a].path)
  }

  function PartialFiles(s: Store): set<Address> {
    set a | a in Partials(s) :: PartialFile(s, a)
  }

  function ChildFiles(from: Address, ds: seq<Details>): set<Address> {
    set i | 0 <= i < |ds| :: Child(from, ds[i].row.path)
  }
}
