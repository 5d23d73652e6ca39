/** Several DevSpace clients writing their registry's credentials into one image pull secret, each with a loop that reads
    the secret, changes it, and writes it back unless somebody else was faster. */
module PullSecrets {
  import opened Turns
  import opened Wrappers

  // ---------------------------------------------------------------------------------------------
  // What a client wants to store
  // ---------------------------------------------------------------------------------------------

  datatype PullSecretOptions = PullSecretOptions(
    registryURL: string, username: string, passwordOrToken: string, email: string)

  datatype DockerConfigEntry = DockerConfigEntry(auth: string, email: string)

  type DockerConfig = map<string, DockerConfigEntry>

  const NO_ENTRY := DockerConfigEntry("", "")

  function RegistryKey(o: PullSecretOptions): string {
    if o.registryURL == "hub.docker.com" || o.registryURL == "" then "https://index.docker.io/v1/" else o.registryURL
  }

  function AuthToken(o: PullSecretOptions): string {
    if o.username != "" then o.username + ":" + o.passwordOrToken else o.passwordOrToken
  }

  /** `encode` stands for the base64 encoding. */
  function NewDockerConfigEntry(o: PullSecretOptions, encode: string -> string): DockerConfigEntry {
    DockerConfigEntry(encode(AuthToken(o)), if o.email == "" then "noreply@devspace.sh" else o.email)
  }

  predicate HasChanges(existing: DockerConfigEntry, updated: DockerConfigEntry) {
    existing.auth != updated.auth || existing.email != updated.email
  }

  /** What reading a map without the key gives. */
  function Lookup(auths: DockerConfig, key: string): DockerConfigEntry {
    if key in auths then auths[key] else NO_ENTRY
  }

  /** A missing entry always counts as a change, because the stored e-mail address is never empty. */
  lemma NoChangeMeansPresent(auths: DockerConfig, o: PullSecretOptions, encode: string -> string)
    ensures !HasChanges(Lookup(auths, RegistryKey(o)), NewDockerConfigEntry(o, encode))
            <==> RegistryKey(o) in auths && auths[RegistryKey(o)] == NewDockerConfigEntry(o, encode)
  {
  }

  /** The entries hold the credentials: under the registry's address, or that of the Docker hub, the encoded user and
      password, or the token alone if there is no user, and an e-mail address. */
  ghost predicate HasCredentials(auths: DockerConfig, o: PullSecretOptions, encode: string -> string) {
    exists url :: url in auths
      && (url == o.registryURL || (o.registryURL in ["hub.docker.com", ""] && url == "https://index.docker.io/v1/"))
      && (o.registryURL in ["hub.docker.com", ""] ==> url == "https://index.docker.io/v1/")
      && (o.username == "" ==> auths[url].auth == encode(o.passwordOrToken))
      && (o.username != "" ==> auths[url].auth == encode(o.username + ":" + o.passwordOrToken))
      && (o.email == "" ==> auths[url].email == "noreply@devspace.sh")
      && (o.email != "" ==> auths[url].email == o.email)
  }

  lemma StoresCredentials(auths: DockerConfig, o: PullSecretOptions, encode: string -> string)
    ensures HasCredentials(auths, o, encode)
            <==> RegistryKey(o) in auths && auths[RegistryKey(o)] == NewDockerConfigEntry(o, encode)
  {
    if RegistryKey(o) in auths && auths[RegistryKey(o)] == NewDockerConfigEntry(o, encode) {
      assert HasCredentials(auths, o, encode);
    }
  }

  // ---------------------------------------------------------------------------------------------
  // The server's object, and one attempt of a client
  // ---------------------------------------------------------------------------------------------

  /** The secret's data: none, not the expected JSON, or a docker config, whose `auths` may be missing. */
  datatype SecretData = NoData | Malformed | Config(auths: Option<DockerConfig>)

  datatype Secret = Secret(version: nat, data: SecretData)

  /** What unmarshalling yields: an error, or a config in which the map of entries may be nil. */
  function FromPullSecretData(d: SecretData): Option<Option<DockerConfig>> {
    match d
    case NoData => Some(None)
    case Malformed => None
    case Config(auths) => Some(auths)
  }

  datatype Outcome = Retry | Success | Failure | Panic

  /** A client that found no secret tries to create it. */
  function Create(server: Option<Secret>, key: string, entry: DockerConfigEntry): (Option<Secret>, Outcome) {
    match server
    case None => (Some(Secret(1, Config(Some(map[key := entry])))), Success)
    case Some(_) => (server, Retry)
  }

  /** A client that got `fetched` stores its entry, unless it is there already. An assignment to a nil map panics; only a
      conflict is tried again, while an update of a secret that is gone fails. */
  function Update(server: Option<Secret>, fetched: Secret, key: string, entry: DockerConfigEntry): (Option<Secret>, Outcome) {
    match FromPullSecretData(fetched.data)
    case None => (server, Failure)
    case Some(auths) =>
      var existing := if auths.Some? then Lookup(auths.value, key) else NO_ENTRY;
      if !HasChanges(existing, entry) then (server, Success)
      else if auths.None? then (server, Panic)
      else if server.None? then (server, Failure)
      else if server.value.version == fetched.version then
        (Some(Secret(fetched.version + 1, Config(Some(auths.value[key := entry])))), Success)
      else (server, Retry)
  }

  // ---------------------------------------------------------------------------------------------
  // Clients as a step system
  // ---------------------------------------------------------------------------------------------

  type ClientId = nat

  /** Not started, about to read, having found nothing, having read the secret, or through. */
  datatype Phase = NotStarted | Trying | Missing | Fetched(secret: Secret) | Through(outcome: Outcome)

  /** `failures` counts the attempts that ended with a conflict, `wrote` tells whether the client has written. */
  datatype Client = Client(options: PullSecretOptions, phase: Phase, failures: nat, wrote: bool)

  datatype State = State(server: Option<Secret>, clients: map<ClientId, Client>)

  datatype World = World(encode: string -> string)

  function Key(c: Client): string {
    RegistryKey(c.options)
  }

  function EntryOf(w: World, c: Client): DockerConfigEntry {
    NewDockerConfigEntry(c.options, w.encode)
  }

  /** The secret does not exist yet, or is one that DevSpace wrote. */
  predicate Usable(server: Option<Secret>) {
    server.Some? ==> server.value.data.Config? && server.value.data.auths.Some?
  }

  function Entries(server: Option<Secret>): DockerConfig
    requires Usable(server)
  {
    if server.None? then map[] else server.value.data.auths.value
  }

  function Version(server: Option<Secret>): nat {
    if server.None? then 0 else server.value.version
  }

  ghost predicate Init(s: State) {
    && Usable(s.server) && (s.server.Some? ==> s.server.value.version > 0)
    && forall c :: c in s.clients ==> s.clients[c] == Client(s.clients[c].options, NotStarted, 0, false)
  }

  ghost predicate Begin(s: State, s': State, c: ClientId) {
    && c in s.clients && s.clients[c].phase.NotStarted?
    && s' == s.(clients := s.clients[c := s.clients[c].(phase := Trying)])
  }

  ghost predicate Get(s: State, s': State, c: ClientId) {
    && c in s.clients && s.clients[c].phase.Trying?
    && s' == s.(clients := s.clients[c := s.clients[c].(phase := if s.server.None? then Missing else Fetched(s.server.value))])
  }

  /** The request of an attempt reaches the server. */
  ghost predicate Put(w: World, s: State, s': State, c: ClientId) {
    && c in s.clients && c in s'.clients && (s.clients[c].phase.Missing? || s.clients[c].phase.Fetched?)
    && var client := s.clients[c];
       var (server, outcome) :=
         if client.phase.Missing? then Create(s.server, Key(client), EntryOf(w, client))
         else Update(s.server, client.phase.secret, Key(client), EntryOf(w, client));
       s' == State(server, s.clients[c := client.(
         phase := if outcome == Retry then Trying else Through(outcome),
         failures := if outcome == Retry then client.failures + 1 else client.failures,
         wrote := server != s.server)])
  }

  ghost predicate Step(w: World, s: State, s': State) {
    exists c :: Begin(s, s', c) || Get(s, s', c) || Put(w, s, s', c)
  }

  ghost predicate Run(w: World, run: seq<State>) {
    run != [] && Init(run[0]) && forall i :: 0 <= i < |run| - 1 ==> Step(w, run[i], run[i+1])
  }

  // ---------------------------------------------------------------------------------------------
  // The invariant
  // ---------------------------------------------------------------------------------------------

  ghost function Writers(s: State): set<ClientId> {
    set c | c in s.clients && s.clients[c].wrote
  }

  /** The version a client has seen is that of an older state, or the present one. */
  ghost predicate SeenVersion(server: Option<Secret>, phase: Phase) {
    match phase
    case Fetched(secret) =>
      && server.Some? && secret.version <= server.value.version
      && (secret.version == server.value.version ==> secret == server.value)
      && secret.version > 0 && Usable(Some(secret))
    case Through(outcome) => outcome == Success
    case _ => true
  }

  /** The version up to which a client knows of other writes. */
  ghost function KnownVersion(server: Option<Secret>, phase: Phase, first: nat): nat {
    match phase
    case NotStarted => first
    case Missing => 0
    case Fetched(secret) => secret.version
    case _ => Version(server)
  }

  /** Every failure is due to one of the writes the client knows of, and not to its own. */
  ghost predicate ClientOk(server: Option<Secret>, client: Client, first: nat) {
    && SeenVersion(server, client.phase)
    && (client.wrote ==> client.phase == Through(Success))
    && first + client.failures + (if client.wrote then 1 else 0) <= KnownVersion(server, client.phase, first)
  }

  /** `first` is the version at the start of the run; each successful write of a client counts it up by one. */
  ghost predicate Invariant(s: State, first: nat) {
    && Usable(s.server) && (s.server.Some? ==> s.server.value.version > 0)
    && Version(s.server) == first + |Writers(s)|
    && forall c {:trigger s.clients[c]} :: c in s.clients ==> ClientOk(s.server, s.clients[c], first)
  }

  lemma InitInvariant(s: State)
    requires Init(s)
    ensures Invariant(s, Version(s.server))
  {
    assert Writers(s) == {};
  }

  /** An attempt either leaves the server alone or writes the next version, with only the client's own entry changed. */
  lemma PutEffect(w: World, s: State, s': State, c: ClientId, first: nat)
    requires Invariant(s, first) && Put(w, s, s', c)
    ensures s'.server == s.server || (s'.server.Some? && s'.server.value.version == Version(s.server) + 1)
    ensures Usable(s'.server)
    ensures s'.server != s.server ==> Entries(s'.server) == Entries(s.server)[Key(s.clients[c]) := EntryOf(w, s.clients[c])]
    ensures s'.clients[c].phase == Through(Success) || (s'.clients[c].phase.Trying? && s'.server == s.server)
    ensures s'.server != s.server ==> s'.clients[c].phase == Through(Success)
    ensures ClientOk(s'.server, s'.clients[c], first)
    ensures s'.clients[c].wrote <==> s'.server != s.server
    ensures !s.clients[c].wrote
  {
    assert ClientOk(s.server, s.clients[c], first);
  }

  /** What a client knows stays true when another one writes. */
  lemma WriteKeepsOthers(server: Option<Secret>, server': Option<Secret>, client: Client, first: nat)
    requires ClientOk(server, client, first)
    requires server'.Some? && server'.value.version == Version(server) + 1
    ensures ClientOk(server', client, first)
  {
  }

  lemma PutKeeps(w: World, s: State, s': State, c: ClientId, first: nat)
    requires Invariant(s, first) && Put(w, s, s', c)
    ensures Invariant(s', first)
  {
    PutEffect(w, s, s', c, first);
    forall x | x in s'.clients ensures ClientOk(s'.server, s'.clients[x], first) {
      if x != c {
        assert s'.clients[x] == s.clients[x];
        if s'.server != s.server {
          WriteKeepsOthers(s.server, s'.server, s.clients[x], first);
        }
      }
    }
    WritersAfterPut(w, s, s', c, first);
  }

  lemma WritersAfterPut(w: World, s: State, s': State, c: ClientId, first: nat)
    requires Invariant(s, first) && Put(w, s, s', c)
    ensures c !in Writers(s) && Writers(s') == if s'.server != s.server then Writers(s) + {c} else Writers(s)
  {
    PutEffect(w, s, s', c, first);
  }

  lemma ReadKeeps(s: State, s': State, c: ClientId, first: nat)
    requires Invariant(s, first) && (Begin(s, s', c) || Get(s, s', c))
    ensures Invariant(s', first)
  {
    assert Writers(s') == Writers(s);
    forall x | x in s'.clients ensures ClientOk(s'.server, s'.clients[x], first) {
      assert ClientOk(s.server, s.clients[x], first);
    }
  }

  lemma StepKeeps(w: World, s: State, s': State, first: nat)
    requires Invariant(s, first) && Step(w, s, s')
    ensures Invariant(s', first)
  {
    var c :| Begin(s, s', c) || Get(s, s', c) || Put(w, s, s', c);
    if Put(w, s, s', c) {
      PutKeeps(w, s, s', c, first);
    } else {
      ReadKeeps(s, s', c, first);
    }
  }

  lemma {:induction false} SubsetSize(a: set<ClientId>, b: set<ClientId>)
    requires a <= b
    ensures |a| <= |b|
  {
    if x :| x in a {
      SubsetSize(a - {x}, b - {x});
    }
  }

  ghost predicate SameClients(s: State, s': State) {
    s'.clients.Keys == s.clients.Keys && forall c :: c in s'.clients ==> s'.clients[c].options == s.clients[c].options
  }

  lemma StepKeepsClients(w: World, s: State, s': State)
    requires Step(w, s, s')
    ensures SameClients(s, s')
  {
    var c :| Begin(s, s', c) || Get(s, s', c) || Put(w, s, s', c);
  }

  lemma {:induction false} ClientsInRun(w: World, run: seq<State>, i: nat)
    requires Run(w, run) && i < |run|
    ensures SameClients(run[0], run[i])
  {
    if i > 0 {
      ClientsInRun(w, run, i - 1);
      assert Step(w, run[i-1], run[i]);
      StepKeepsClients(w, run[i-1], run[i]);
    }
  }

  lemma {:induction false} InvariantInRun(w: World, run: seq<State>, i: nat)
    requires Run(w, run) && i < |run|
    ensures Invariant(run[i], Version(run[0].server))
  {
    if i == 0 {
      InitInvariant(run[0]);
    } else {
      InvariantInRun(w, run, i - 1);
      assert Step(w, run[i-1], run[i]);
      StepKeeps(w, run[i-1], run[i], Version(run[0].server));
    }
  }

  // ---------------------------------------------------------------------------------------------
  // No lost update
  // ---------------------------------------------------------------------------------------------

  ghost predicate SameAt(a: DockerConfig, b: DockerConfig, key: string) {
    (key in a <==> key in b) && Lookup(a, key) == Lookup(b, key)
  }

  /** A step removes no entry, and changes one only if it is an attempt of a client of that registry. */
  lemma StepKeepsEntries(w: World, s: State, s': State, first: nat, key: string)
    requires Invariant(s, first) && Step(w, s, s')
    ensures Usable(s'.server)
    ensures key in Entries(s.server) ==> key in Entries(s'.server)
    ensures SameAt(Entries(s.server), Entries(s'.server), key)
            || exists c :: c in s.clients && Key(s.clients[c]) == key && Put(w, s, s', c)
  {
    var c :| Begin(s, s', c) || Get(s, s', c) || Put(w, s, s', c);
    if Put(w, s, s', c) {
      PutEffect(w, s, s', c, first);
    }
  }

  /** Between two states of a run a client of that registry has written to the server. */
  ghost predicate PutBetween(w: World, run: seq<State>, i: nat, j: nat, key: string)
    requires j < |run|
  {
    exists k, c {:trigger Put(w, run[k], run[k+1], c)} ::
      && i <= k < j && c in run[k].clients && Key(run[k].clients[c]) == key
      && Put(w, run[k], run[k+1], c) && run[k+1].server != run[k].server
  }

  /** Main result: no interleaving removes an entry, and an entry changes only by writes of clients of its own registry. */
  lemma {:induction false} OthersEntriesStay(w: World, run: seq<State>, i: nat, j: nat, key: string)
    requires Run(w, run) && i <= j < |run|
    ensures Usable(run[i].server) && Usable(run[j].server)
    ensures key in Entries(run[i].server) ==> key in Entries(run[j].server)
    ensures SameAt(Entries(run[i].server), Entries(run[j].server), key) || PutBetween(w, run, i, j, key)
    decreases j - i
  {
    InvariantInRun(w, run, i);
    if i < j {
      assert Step(w, run[i], run[i+1]);
      StepKeepsEntries(w, run[i], run[i+1], Version(run[0].server), key);
      OthersEntriesStay(w, run, i + 1, j, key);
      if PutBetween(w, run, i + 1, j, key) {
        var k, c :| i + 1 <= k < j && c in run[k].clients && Key(run[k].clients[c]) == key
          && Put(w, run[k], run[k+1], c) && run[k+1].server != run[k].server;
      }
    }
  }

  ghost predicate Stored(w: World, s: State, c: ClientId)
    requires c in s.clients
  {
    && Usable(s.server) && Key(s.clients[c]) in Entries(s.server)
    && Entries(s.server)[Key(s.clients[c])] == EntryOf(w, s.clients[c])
  }

  /** Between its start and now the client has seen its entry on the server. */
  ghost predicate WasStored(w: World, run: seq<State>, c: ClientId, i: nat) {
    exists j :: 0 <= j <= i < |run| && c in run[j].clients && !run[j].clients[c].phase.NotStarted? && Stored(w, run[j], c)
  }

  /** A client that has fetched a secret fetched it in this step, from the server, or had it before. */
  lemma FetchedInStep(w: World, s: State, s': State, c: ClientId)
    requires Step(w, s, s') && c in s'.clients && s'.clients[c].phase.Fetched?
    ensures c in s.clients && s.clients[c].options == s'.clients[c].options && !s.clients[c].phase.NotStarted?
    ensures s.server == Some(s'.clients[c].phase.secret) || s.clients[c].phase == s'.clients[c].phase
  {
    var x :| Begin(s, s', x) || Get(s, s', x) || Put(w, s, s', x);
  }

  /** A secret that a client has fetched was the server's at some moment since the client started. */
  lemma {:induction false} FetchedEarlier(w: World, run: seq<State>, i: nat, c: ClientId) returns (j: nat)
    requires Run(w, run) && i < |run| && c in run[i].clients && run[i].clients[c].phase.Fetched?
    ensures j <= i && c in run[j].clients && !run[j].clients[c].phase.NotStarted?
    ensures run[j].server == Some(run[i].clients[c].phase.secret) && run[j].clients[c].options == run[i].clients[c].options
  {
    assert i > 0;
    assert Step(w, run[i-1], run[i]);
    FetchedInStep(w, run[i-1], run[i], c);
    if run[i-1].server == Some(run[i].clients[c].phase.secret) {
      j := i - 1;
    } else {
      j := FetchedEarlier(w, run, i - 1, c);
    }
  }

  lemma WasStoredLater(w: World, run: seq<State>, c: ClientId, i: nat)
    requires i + 1 < |run| && WasStored(w, run, c, i)
    ensures WasStored(w, run, c, i + 1)
  {
    var j :| 0 <= j <= i && c in run[j].clients && !run[j].clients[c].phase.NotStarted? && Stored(w, run[j], c);
  }

  /** A client gets through by a request, and from then on stays through. */
  lemma ThroughByPut(w: World, s: State, s': State, c: ClientId)
    requires Step(w, s, s') && c in s'.clients && s'.clients[c].phase.Through?
    ensures c in s.clients && (s.clients[c].phase.Through? || Put(w, s, s', c))
  {
    var x :| Begin(s, s', x) || Get(s, s', x) || Put(w, s, s', x);
  }

  lemma ThroughWithSuccess(w: World, run: seq<State>, i: nat, c: ClientId)
    requires Run(w, run) && i < |run| && c in run[i].clients && run[i].clients[c].phase.Through?
    ensures run[i].clients[c].phase == Through(Success) && i > 0
  {
    InvariantInRun(w, run, i);
    assert ClientOk(run[i].server, run[i].clients[c], Version(run[0].server));
  }

  /** Main result: every client that gets through has had its entry on the server. */
  lemma {:induction false} SuccessMeansStored(w: World, run: seq<State>, i: nat, c: ClientId)
    requires Run(w, run) && i < |run| && c in run[i].clients && run[i].clients[c].phase.Through?
    ensures run[i].clients[c].phase == Through(Success) && WasStored(w, run, c, i)
  {
    ThroughWithSuccess(w, run, i, c);
    assert Step(w, run[i-1], run[i]);
    ThroughByPut(w, run[i-1], run[i], c);
    if run[i-1].clients[c].phase.Through? {
      SuccessMeansStored(w, run, i - 1, c);
      WasStoredLater(w, run, c, i - 1);
    } else {
      PutMeansStored(w, run, i - 1, c);
    }
  }

  lemma PutMeansStored(w: World, run: seq<State>, i: nat, c: ClientId)
    requires Run(w, run) && i + 1 < |run| && Put(w, run[i], run[i+1], c)
    requires run[i+1].clients[c].phase == Through(Success)
    ensures WasStored(w, run, c, i + 1)
  {
    var s, s' := run[i], run[i+1];
    InvariantInRun(w, run, i);
    PutEffect(w, s, s', c, Version(run[0].server));
    if s'.server != s.server {
      assert Stored(w, s', c);
    } else {
      assert ClientOk(s.server, s.clients[c], Version(run[0].server));
      var j := FetchedEarlier(w, run, i, c);
      InvariantInRun(w, run, j);
      NoChangeMeansPresent(Entries(run[j].server), s.clients[c].options, w.encode);
      assert Stored(w, run[j], c);
    }
  }

  /** The registry's entry is what one of its clients wants to store. */
  ghost predicate OwnersEntry(w: World, s: State, key: string) {
    && Usable(s.server) && key in Entries(s.server)
    && exists d :: d in s.clients && Key(s.clients[d]) == key && Entries(s.server)[key] == EntryOf(w, s.clients[d])
  }

  lemma PutKeepsOwners(w: World, s: State, s': State, first: nat, c: ClientId, key: string)
    requires Invariant(s, first) && Put(w, s, s', c) && OwnersEntry(w, s, key)
    ensures OwnersEntry(w, s', key)
  {
    PutEffect(w, s, s', c, first);
    var d :| d in s.clients && Key(s.clients[d]) == key && Entries(s.server)[key] == EntryOf(w, s.clients[d]);
    if s'.server != s.server && Key(s.clients[c]) == key {
      assert Entries(s'.server)[key] == EntryOf(w, s'.clients[c]);
    } else {
      assert Entries(s'.server)[key] == EntryOf(w, s'.clients[d]);
    }
  }

  lemma ReadKeepsOwners(w: World, s: State, s': State, c: ClientId, key: string)
    requires (Begin(s, s', c) || Get(s, s', c)) && OwnersEntry(w, s, key)
    ensures OwnersEntry(w, s', key)
  {
    var d :| d in s.clients && Key(s.clients[d]) == key && Entries(s.server)[key] == EntryOf(w, s.clients[d]);
    assert Key(s'.clients[d]) == key && EntryOf(w, s'.clients[d]) == EntryOf(w, s.clients[d]);
  }

  lemma {:induction false} OwnersEntryStays(w: World, run: seq<State>, i: nat, j: nat, key: string)
    requires Run(w, run) && i <= j < |run| && OwnersEntry(w, run[i], key)
    ensures OwnersEntry(w, run[j], key)
    decreases j - i
  {
    if i < j {
      InvariantInRun(w, run, i);
      assert Step(w, run[i], run[i+1]);
      var c :| Begin(run[i], run[i+1], c) || Get(run[i], run[i+1], c) || Put(w, run[i], run[i+1], c);
      if Put(w, run[i], run[i+1], c) {
        PutKeepsOwners(w, run[i], run[i+1], Version(run[0].server), c, key);
      } else {
        ReadKeepsOwners(w, run[i], run[i+1], c, key);
      }
      OwnersEntryStays(w, run, i + 1, j, key);
    }
  }

  lemma SameOptions(w: World, run: seq<State>, i: nat, j: nat, c: ClientId)
    requires Run(w, run) && i < |run| && j < |run| && c in run[i].clients
    ensures c in run[j].clients && run[j].clients[c].options == run[i].clients[c].options
  {
    ClientsInRun(w, run, i);
    ClientsInRun(w, run, j);
  }

  /** No other client writes credentials for the client's registry. */
  ghost predicate OwnRegistry(s: State, c: ClientId)
    requires c in s.clients
  {
    forall d :: d in s.clients && d != c ==> Key(s.clients[d]) != Key(s.clients[c])
  }

  /** Main result: no update is lost. Once a client is through, its registry has an entry, then and ever after: its own, or
      that of another client of the same registry; whatever the clients of other registries do meanwhile. */
  lemma NoLostUpdate(w: World, run: seq<State>, i: nat, j: nat, c: ClientId)
    requires Run(w, run) && i <= j < |run| && c in run[i].clients && run[i].clients[c].phase.Through?
    ensures c in run[j].clients && OwnersEntry(w, run[j], Key(run[j].clients[c]))
    ensures OwnRegistry(run[j], c) ==> Stored(w, run[j], c) && HasCredentials(Entries(run[j].server), run[j].clients[c].options, w.encode)
  {
    SuccessMeansStored(w, run, i, c);
    var k :| 0 <= k <= i && c in run[k].clients && !run[k].clients[c].phase.NotStarted? && Stored(w, run[k], c);
    assert OwnersEntry(w, run[k], Key(run[k].clients[c]));
    OwnersEntryStays(w, run, k, j, Key(run[k].clients[c]));
    SameOptions(w, run, k, j, c);
  }

  // ---------------------------------------------------------------------------------------------
  // The number of attempts
  // ---------------------------------------------------------------------------------------------

  /** Main result: with n clients and nobody else writing, no client makes more than n attempts, because every conflict is
      due to a write of another client, and no client writes twice. */
  lemma AttemptsAreBounded(w: World, run: seq<State>, i: nat, c: ClientId)
    requires Run(w, run) && i < |run| && c in run[i].clients
    ensures run[i].clients[c].failures + 1 <= |run[0].clients|
  {
    InvariantInRun(w, run, i);
    ClientsInRun(w, run, i);
    var s := run[i];
    assert ClientOk(s.server, s.clients[c], Version(run[0].server));
    SubsetSize(Writers(s), if s.clients[c].wrote then s.clients.Keys else s.clients.Keys - {c});
    assert |s.clients.Keys| == |s.clients| && |run[0].clients.Keys| == |run[0].clients|;
  }

  // ---------------------------------------------------------------------------------------------
  // A secret that DevSpace did not write
  // ---------------------------------------------------------------------------------------------

  /** An attempt panics exactly if the secret it got has no map of entries, for example because it has no data at all. */
  lemma PanicsWithoutEntries(server: Option<Secret>, fetched: Secret, o: PullSecretOptions, encode: string -> string)
    ensures Update(server, fetched, RegistryKey(o), NewDockerConfigEntry(o, encode)).1 == Panic
            <==> fetched.data == NoData || fetched.data == Config(None)
  {
  }

  // ---------------------------------------------------------------------------------------------
  // The loop itself, whatever others do meanwhile
  // ---------------------------------------------------------------------------------------------

  /** One poll of the client: the steps `Get` and `Put`, with what others do before each of them. */
  function Attempted(server: Option<Secret>, turn: Turn<Option<Secret>>, o: PullSecretOptions, encode: string -> string)
    : (Option<Secret>, Outcome)
  {
    var read := turn.before(server);
    var present := turn.between(read);
    if read.None? then Create(present, RegistryKey(o), NewDockerConfigEntry(o, encode))
    else Update(present, read.value, RegistryKey(o), NewDockerConfigEntry(o, encode))
  }

  /** The polls until one decides; without one that does, the client runs into its timeout. */
  function Polled(server: Option<Secret>, turns: seq<Turn<Option<Secret>>>, o: PullSecretOptions, encode: string -> string)
    : (Option<Secret>, Outcome)
    decreases |turns|
  {
    if turns == [] then (server, Retry)
    else
      var (server', outcome) := Attempted(server, turns[0], o, encode);
      if outcome == Retry then Polled(server', turns[1..], o, encode) else (server', outcome)
  }

  /** The function does what the steps of the run do, in whatever states they are taken. */
  lemma AttemptedInSteps(w: World, s: State, s1: State, s2: State, s3: State, c: ClientId, turn: Turn<Option<Secret>>)
    requires Get(s, s1, c) && c in s2.clients && s2.clients[c] == s1.clients[c] && Put(w, s2, s3, c)
    requires turn.before(s.server) == s.server && turn.between(s.server) == s2.server
    ensures var (server, outcome) := Attempted(s.server, turn, s.clients[c].options, w.encode);
            && s3.server == server
            && s3.clients[c].phase == if outcome == Retry then Trying else Through(outcome)
  {
  }

  /** A client that nobody disturbs between its read and its request does not try again. */
  lemma {:induction false} UndisturbedDecides(server: Option<Secret>, turns: seq<Turn<Option<Secret>>>, k: nat,
                                              o: PullSecretOptions, encode: string -> string)
    requires k < |turns| && Undisturbed(turns[k])
    ensures Polled(server, turns, o, encode).1 != Retry
    decreases |turns|
  {
    if k > 0 {
      UndisturbedDecides(Attempted(server, turns[0], o, encode).0, turns[1..], k - 1, o, encode);
    }
  }

  /** What the first poll leaves when nobody else writes. */
  lemma AlonePolls(server: Option<Secret>, turns: seq<Turn<Option<Secret>>>, o: PullSecretOptions, encode: string -> string)
    requires turns != [] && Alone(turns[0])
    ensures Usable(server) ==>
              var (server', outcome) := Polled(server, turns, o, encode);
              && outcome == Success && Usable(server')
              && Entries(server') == Entries(server)[RegistryKey(o) := NewDockerConfigEntry(o, encode)]
              && HasCredentials(Entries(server'), o, encode)
    ensures !Usable(server) ==>
              Polled(server, turns, o, encode) == (server, if server.value.data.Malformed? then Failure else Panic)
  {
    if Usable(server) {
      StoresCredentials(Entries(Polled(server, turns, o, encode).0), o, encode);
    }
  }

  /** The refusals of the server. */
  datatype ApiError = NotFound | AlreadyExists | Conflict

  class SecretStore {
    var secret: Option<Secret>

    constructor (secret: Option<Secret>)
      ensures this.secret == secret
    {
      this.secret := secret;
    }

    method CreateSecret(data: SecretData) returns (err: Option<ApiError>)
      modifies this
      ensures err == if old(secret).Some? then Some(AlreadyExists) else None
      ensures secret == if old(secret).Some? then old(secret) else Some(Secret(1, data))
    {
      if secret.Some? {
        return Some(AlreadyExists);
      }
      secret := Some(Secret(1, data));
      return None;
    }

    method UpdateSecret(updated: Secret) returns (err: Option<ApiError>)
      modifies this
      ensures err == if old(secret).None? then Some(NotFound)
                     else if old(secret).value.version != updated.version then Some(Conflict) else None
      ensures secret == if err.Some? then old(secret) else Some(Secret(updated.version + 1, updated.data))
    {
      if secret.None? {
        return Some(NotFound);
      }
      if secret.value.version != updated.version {
        return Some(Conflict);
      }
      secret := Some(Secret(updated.version + 1, updated.data));
      return None;
    }

    /** Other writers. */
    method Others(write: Option<Secret> -> Option<Secret>)
      modifies this
      ensures secret == write(old(secret))
    {
      secret := write(secret);
    }
  }

  /** The secret that was read, with the credentials, and otherwise the entries it had. */
  ghost predicate StoredOver(secret: Option<Secret>, read: Option<Secret>, o: PullSecretOptions, encode: string -> string)
    requires Usable(read)
  {
    && Usable(secret) && Version(secret) == Version(read) + 1 && HasCredentials(Entries(secret), o, encode)
    && forall url :: url != RegistryKey(o) ==> SameAt(Entries(secret), Entries(read), url)
  }

  /** One attempt: the requests of a client, as they find the server. */
  method Attempt(store: SecretStore, turn: Turn<Option<Secret>>, o: PullSecretOptions, encode: string -> string)
    returns (outcome: Outcome)
    modifies store
    ensures (store.secret, outcome) == Attempted(old(store.secret), turn, o, encode)
    ensures var read := turn.before(old(store.secret));
            var present := turn.between(read);
            var mustStore := Usable(read) && !HasCredentials(Entries(read), o, encode);
            var changed := present.Some? && (read.None? || present.value.version != read.value.version);
            && (outcome == Panic <==> !Usable(read) && !read.value.data.Malformed?)
            && (outcome == Retry <==> mustStore && changed)
            && (outcome == Failure <==> read.Some? && (read.value.data.Malformed? || (mustStore && present.None?)))
            && if outcome == Success && mustStore then StoredOver(store.secret, read, o, encode)
               else store.secret == present
  {
    StoresCredentials(if Usable(turn.before(store.secret)) then Entries(turn.before(store.secret)) else map[], o, encode);
    var registryURL, updatedEntry := RegistryKey(o), NewDockerConfigEntry(o, encode);
    store.Others(turn.before);
    var read := store.secret;
    store.Others(turn.between);
    if read.None? {
      var err := store.CreateSecret(Config(Some(map[registryURL := updatedEntry])));
      return if err.Some? then Retry else Success;
    }
    var secret := read.value;
    var dockerConfig := FromPullSecretData(secret.data);
    if dockerConfig.None? {
      return Failure;
    }
    var auths := dockerConfig.value;
    var existingEntry := if auths.Some? then Lookup(auths.value, registryURL) else NO_ENTRY;
    if HasChanges(existingEntry, updatedEntry) {
      if auths.None? {
        return Panic;
      }
      var err := store.UpdateSecret(secret.(data := Config(Some(auths.value[registryURL := updatedEntry]))));
      if err.Some? {
        return if err.value.Conflict? then Retry else Failure;
      }
      StoresCredentials(Entries(store.secret), o, encode);
    }
    return Success;
  }

  /** The polling loop; there are as many polls before the timeout as there are `turns`. */
  method CreatePullSecret(store: SecretStore, turns: seq<Turn<Option<Secret>>>, o: PullSecretOptions, encode: string -> string)
    returns (outcome: Outcome)
    modifies store
    ensures (store.secret, outcome) == Polled(old(store.secret), turns, o, encode)
    ensures turns != [] && Alone(turns[0]) && Usable(old(store.secret)) ==>
              && outcome == Success && Usable(store.secret)
              && Entries(store.secret) == Entries(old(store.secret))[RegistryKey(o) := NewDockerConfigEntry(o, encode)]
              && HasCredentials(Entries(store.secret), o, encode)
    ensures turns != [] && Alone(turns[0]) && !Usable(old(store.secret)) ==>
              && store.secret == old(store.secret)
              && outcome == if old(store.secret).value.data.Malformed? then Failure else Panic
    ensures outcome == Retry ==> forall turn :: turn in turns ==> !Undisturbed(turn)
  {
    outcome := Retry;
    var i := 0;
    while outcome == Retry && i < |turns|
      invariant i <= |turns|
      invariant Polled(old(store.secret), turns, o, encode) ==
                  if outcome == Retry then Polled(store.secret, turns[i..], o, encode) else (store.secret, outcome)
    {
      outcome := Attempt(store, turns[i], o, encode);
      i := i + 1;
    }
    if turns != [] && Alone(turns[0]) {
      AlonePolls(old(store.secret), turns, o, encode);
    }
    forall k | 0 <= k < |turns| && Undisturbed(turns[k]) ensures outcome != Retry {
      UndisturbedDecides(old(store.secret), turns, k, o, encode);
    }
  }
}
