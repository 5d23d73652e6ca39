/** Several clients adding the names of their pull secrets to one service account, each with a read-modify-write loop. */
module ServiceAccounts {
  import opened Sequences
  import opened Turns
  import opened Wrappers

  datatype ServiceAccount = ServiceAccount(version: nat, imagePullSecrets: seq<string>)

  type ClientId = nat

  datatype Phase = NotStarted | Trying | Fetched(account: ServiceAccount) | Done

  datatype Client = Client(name: string, phase: Phase)

  /** The account may not exist yet; then clients retry until it does. */
  datatype State = State(account: Option<ServiceAccount>, clients: map<ClientId, Client>)

  // ---------------------------------------------------------------------------------------------
  // Steps
  // ---------------------------------------------------------------------------------------------

  ghost predicate Init(s: State) {
    forall c :: c in s.clients ==> s.clients[c].phase == NotStarted
  }

  ghost predicate Begin(s: State, s': State, c: ClientId) {
    && c in s.clients && s.clients[c].phase.NotStarted?
    && s' == s.(clients := s.clients[c := s.clients[c].(phase := Trying)])
  }

  ghost predicate Get(s: State, s': State, c: ClientId) {
    && c in s.clients && s.clients[c].phase.Trying?
    && s' == if s.account.None? then s
             else s.(clients := s.clients[c := s.clients[c].(phase := Fetched(s.account.value))])
  }

  /** The search for the name in the account that was read. */
  method Contains(account: ServiceAccount, pullSecretName: string) returns (found: bool)
    ensures found <==> pullSecretName in account.imagePullSecrets
  {
    found := false;
    for i := 0 to |account.imagePullSecrets|
      invariant !found && pullSecretName !in account.imagePullSecrets[..i]
    {
      if account.imagePullSecrets[i] == pullSecretName {
        found := true;
        break;
      }
    }
  }

  datatype Outcome = Retry | Success | Failure

  /** Nothing to do if the name is in the account that was read; otherwise it is appended and written back unless the
      account has changed. Only a conflict is tried again, while an update of an account that is gone fails. */
  function Add(present: Option<ServiceAccount>, read: ServiceAccount, name: string): (Option<ServiceAccount>, Outcome) {
    if name in read.imagePullSecrets then (present, Success)
    else if present.None? then (present, Failure)
    else if present.value.version == read.version then
      (Some(ServiceAccount(read.version + 1, read.imagePullSecrets + [name])), Success)
    else (present, Retry)
  }

  /** The request of an attempt reaches the server. */
  ghost predicate Put(s: State, s': State, c: ClientId) {
    && c in s.clients && s.clients[c].phase.Fetched? && s.account.Some?
    && var (account, outcome) := Add(s.account, s.clients[c].phase.account, s.clients[c].name);
       s' == State(account, s.clients[c := s.clients[c].(phase := if outcome == Success then Done else Trying)])
  }

  /** The cluster creates the account. */
  ghost predicate Created(s: State, s': State) {
    s.account.None? && s'.account.Some? && s'.account.value.version > 0 && s' == s.(account := s'.account)
  }

  ghost predicate Step(s: State, s': State) {
    Created(s, s') || exists c :: Begin(s, s', c) || Get(s, s', c) || Put(s, s', c)
  }

  ghost predicate Run(run: seq<State>) {
    run != [] && Init(run[0]) && forall i :: 0 <= i < |run| - 1 ==> Step(run[i], run[i+1])
  }

  // ---------------------------------------------------------------------------------------------
  // The names only grow
  // ---------------------------------------------------------------------------------------------

  function Names(account: Option<ServiceAccount>): seq<string> {
    if account.None? then [] else account.value.imagePullSecrets
  }

  /** What a client has read is an older state of the account, or the present one. */
  ghost predicate ClientOk(account: Option<ServiceAccount>, client: Client) {
    match client.phase
    case Fetched(read) =>
      && account.Some? && read.version <= account.value.version
      && (read.version == account.value.version ==> read == account.value)
      && read.imagePullSecrets <= account.value.imagePullSecrets
    case Done => account.Some? && client.name in account.value.imagePullSecrets
    case _ => true
  }

  ghost predicate Invariant(s: State) {
    forall c {:trigger s.clients[c]} :: c in s.clients ==> ClientOk(s.account, s.clients[c])
  }

  lemma PrefixTransitive(a: seq<string>, b: seq<string>, c: seq<string>)
    requires a <= b && b <= c
    ensures a <= c
  {
    assert a == c[..|b|][..|a|];
  }

  lemma StepGrows(s: State, s': State)
    requires Invariant(s) && Step(s, s')
    ensures Invariant(s') && (s.account.Some? ==> s'.account.Some? && Names(s.account) <= Names(s'.account))
    ensures s.account.Some? && Distinct(Names(s.account)) ==> Distinct(Names(s'.account))
  {
    if !Created(s, s') {
      var c :| Begin(s, s', c) || Get(s, s', c) || Put(s, s', c);
      assert ClientOk(s.account, s.clients[c]);
      forall x | x in s'.clients ensures ClientOk(s'.account, s'.clients[x]) {
        assert ClientOk(s.account, s.clients[x]);
        if s.clients[x].phase.Fetched? && s'.account.Some? {
          PrefixTransitive(s.clients[x].phase.account.imagePullSecrets, Names(s.account), Names(s'.account));
        }
      }
    }
  }

  lemma {:induction false} InvariantInRun(run: seq<State>, i: nat)
    requires Run(run) && i < |run|
    ensures Invariant(run[i])
  {
    if i > 0 {
      InvariantInRun(run, i - 1);
      assert Step(run[i-1], run[i]);
      StepGrows(run[i-1], run[i]);
    }
  }

  /** Main result: once the account exists, its list of names only grows at the end, and it stays free of duplicates. */
  lemma {:induction false} NamesOnlyGrow(run: seq<State>, i: nat, j: nat)
    requires Run(run) && i <= j < |run| && run[i].account.Some?
    ensures run[j].account.Some? && Names(run[i].account) <= Names(run[j].account)
    ensures Distinct(Names(run[i].account)) ==> Distinct(Names(run[j].account))
    decreases j - i
  {
    if i < j {
      InvariantInRun(run, i);
      assert Step(run[i], run[i+1]);
      StepGrows(run[i], run[i+1]);
      NamesOnlyGrow(run, i + 1, j);
      PrefixTransitive(Names(run[i].account), Names(run[i+1].account), Names(run[j].account));
    }
  }

  /** Main result: a client that is done finds its name in the account, then and ever after. */
  lemma DoneMeansAdded(run: seq<State>, i: nat, j: nat, c: ClientId)
    requires Run(run) && i <= j < |run| && c in run[i].clients && run[i].clients[c].phase == Done
    ensures run[i].clients[c].name in Names(run[j].account)
  {
    InvariantInRun(run, i);
    assert ClientOk(run[i].account, run[i].clients[c]);
    NamesOnlyGrow(run, i, j);
  }

  // ---------------------------------------------------------------------------------------------
  // The loop itself, whatever others do meanwhile
  // ---------------------------------------------------------------------------------------------

  /** One poll of the client: the steps `Get` and `Put`, with what others do before each of them. */
  function Attempted(account: Option<ServiceAccount>, turn: Turn<Option<ServiceAccount>>, name: string)
    : (Option<ServiceAccount>, Outcome)
  {
    var read := turn.before(account);
    var present := turn.between(read);
    if read.None? then (present, Retry) else Add(present, read.value, name)
  }

  /** The polls until one decides; without one that does, the client runs into its timeout. */
  function Polled(account: Option<ServiceAccount>, turns: seq<Turn<Option<ServiceAccount>>>, name: string)
    : (Option<ServiceAccount>, Outcome)
    decreases |turns|
  {
    if turns == [] then (account, Retry)
    else
      var (account', outcome) := Attempted(account, turns[0], name);
      if outcome == Retry then Polled(account', turns[1..], name) else (account', outcome)
  }

  /** The function does what the steps of the run do, in whatever states they are taken. */
  lemma AttemptedInSteps(s: State, s1: State, s2: State, s3: State, c: ClientId, turn: Turn<Option<ServiceAccount>>)
    requires s.account.Some? && Get(s, s1, c) && c in s2.clients && s2.clients[c] == s1.clients[c] && Put(s2, s3, c)
    requires turn.before(s.account) == s.account && turn.between(s.account) == s2.account
    ensures var (account, outcome) := Attempted(s.account, turn, s.clients[c].name);
            s3.account == account && s3.clients[c].phase == if outcome == Success then Done else Trying
  {
  }

  /** A client that nobody disturbs between its read and its request tries again only if it finds no account. */
  lemma {:induction false} UndisturbedDecides(account: Option<ServiceAccount>, turns: seq<Turn<Option<ServiceAccount>>>,
                                              k: nat, name: string)
    requires k < |turns| && Undisturbed(turns[k]) && forall a :: turns[k].before(a).Some?
    ensures Polled(account, turns, name).1 != Retry
    decreases |turns|
  {
    if k > 0 {
      UndisturbedDecides(Attempted(account, turns[0], name).0, turns[1..], k - 1, name);
    }
  }

  /** The refusals of the server. */
  datatype ApiError = NotFound | Conflict

  class AccountStore {
    var account: Option<ServiceAccount>

    constructor (account: Option<ServiceAccount>)
      ensures this.account == account
    {
      this.account := account;
    }

    method UpdateAccount(updated: ServiceAccount) returns (err: Option<ApiError>)
      modifies this
      ensures err == if old(account).None? then Some(NotFound)
                     else if old(account).value.version != updated.version then Some(Conflict) else None
      ensures account == if err.Some? then old(account)
                         else Some(ServiceAccount(updated.version + 1, updated.imagePullSecrets))
    {
      if account.None? {
        return Some(NotFound);
      }
      if account.value.version != updated.version {
        return Some(Conflict);
      }
      account := Some(ServiceAccount(updated.version + 1, updated.imagePullSecrets));
      return None;
    }

    /** Other writers. */
    method Others(write: Option<ServiceAccount> -> Option<ServiceAccount>)
      modifies this
      ensures account == write(old(account))
    {
      account := write(account);
    }
  }

  /** One poll: the requests of a client, as they find the server. */
  method Attempt(store: AccountStore, turn: Turn<Option<ServiceAccount>>, pullSecretName: string) returns (outcome: Outcome)
    modifies store
    ensures (store.account, outcome) == Attempted(old(store.account), turn, pullSecretName)
    ensures var read := turn.before(old(store.account));
            var present := turn.between(read);
            var mustAdd := read.Some? && pullSecretName !in Names(read);
            && (outcome == Retry <==> read.None? || (mustAdd && present.Some? && present.value.version != read.value.version))
            && (outcome == Failure <==> mustAdd && present.None?)
            && if outcome == Success && mustAdd then
                 && store.account.Some? && store.account.value.version == read.value.version + 1
                 && Names(store.account) == Names(read) + [pullSecretName]
               else store.account == present
  {
    store.Others(turn.before);
    var read := store.account;
    store.Others(turn.between);
    if read.None? {
      return Retry;
    }
    var sa := read.value;
    var found := Contains(sa, pullSecretName);
    if !found {
      sa := sa.(imagePullSecrets := sa.imagePullSecrets + [pullSecretName]);
      var err := store.UpdateAccount(sa);
      if err.Some? {
        return if err.value.Conflict? then Retry else Failure;
      }
    }
    return Success;
  }

  /** The polling loop; there are as many polls before the timeout as there are `turns`. */
  method AddPullSecretToServiceAccount(store: AccountStore, turns: seq<Turn<Option<ServiceAccount>>>, pullSecretName: string)
    returns (outcome: Outcome)
    modifies store
    ensures (store.account, outcome) == Polled(old(store.account), turns, pullSecretName)
    ensures turns != [] && Alone(turns[0]) && old(store.account).Some? ==>
              && outcome == Success && store.account.Some?
              && Names(store.account) == if pullSecretName in Names(old(store.account)) then Names(old(store.account))
                                         else Names(old(store.account)) + [pullSecretName]
    ensures outcome == Retry ==> forall turn :: turn in turns && Undisturbed(turn) ==> exists a :: turn.before(a).None?
  {
    outcome := Retry;
    var i := 0;
    while outcome == Retry && i < |turns|
      invariant i <= |turns|
      invariant Polled(old(store.account), turns, pullSecretName) ==
                  if outcome == Retry then Polled(store.account, turns[i..], pullSecretName) else (store.account, outcome)
    {
      outcome := Attempt(store, turns[i], pullSecretName);
      i := i + 1;
    }
    forall k | 0 <= k < |turns| && Undisturbed(turns[k]) && forall a :: turns[k].before(a).Some? ensures outcome != Retry {
      UndisturbedDecides(old(store.account), turns, k, pullSecretName);
    }
  }
}
