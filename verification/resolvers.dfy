/** The mock account registry and the token-status query of the GraphQL
    resolvers (api/src/graphql/resolvers/index.ts). The in-memory user list is
    passed in and returned; thrown Apollo errors become `Failure` values. */
module Resolvers {
  import opened Wrappers
  import opened Decimal
  import opened Utils
  import opened Bucket
  import opened LeakyBucket
  import opened Responses

  /** A stored account, password included. Creation and update timestamps
      are wall-clock strings and are not modelled. */
  datatype User = User(id: string, username: string, email: string, password: string)

  /** The account as returned to clients: everything but the password. */
  datatype PublicUser = PublicUser(id: string, username: string, email: string)

  datatype AuthResponse = AuthResponse(token: string, user: PublicUser)

  /** The two Apollo error classes the resolvers throw. */
  datatype AuthError = UserInputError(message: string) | AuthenticationError(message: string)

  const DuplicateEmailMessage: string := "Usuário com esse e-mail já existe!"
  const InvalidCredentialsMessage: string := "Credenciais inválidas"
  const TokenPrefix: string := "mock_token_for_"

  /** The fixture the registry starts with. */
  const InitialUsers: seq<User> := [User("1", "testuser", "test@example.com", "hashed_password")]

  function WithoutPassword(u: User): PublicUser {
    PublicUser(u.id, u.username, u.email)
  }

  function AuthFor(u: User): AuthResponse {
    AuthResponse(TokenPrefix + u.id, WithoutPassword(u))
  }

  /** Some stored user has this email (`mockUsers.some`). */
  predicate EmailTaken(users: seq<User>, email: string) {
    exists i :: 0 <= i < |users| && users[i].email == email
  }

  /** The position of the first user with this email (`mockUsers.find`). */
  function FindByEmail(users: seq<User>, email: string): (r: Option<nat>)
    ensures r.None? <==> !EmailTaken(users, email)
    ensures r.Some? ==>
              r.value < |users| && users[r.value].email == email
              && forall j :: 0 <= j < r.value ==> users[j].email != email
  {
    if |users| == 0 then None
    else if users[0].email == email then Some(0)
    else
      match FindByEmail(users[1..], email)
      case None =>
        assert forall i :: 1 <= i < |users| ==> users[i] == users[1..][i - 1];
        None
      case Some(j) =>
        assert forall i :: 1 <= i < j + 1 ==> users[i] == users[1..][i - 1];
        Some(j + 1)
  }

  /** `register`: refuses an email already in the list; otherwise appends a
      user whose id is the decimal rendering of the new list length. */
  function Register(users: seq<User>, username: string, email: string, password: string)
    : (r: Result<(seq<User>, AuthResponse), AuthError>)
    ensures r.Failure? <==> EmailTaken(users, email)
    ensures r.Failure? ==> r.error == UserInputError(DuplicateEmailMessage)
    ensures r.Success? ==>
              var (after, auth) := r.value;
              && |after| == |users| + 1
              && after[..|users|] == users
              && after[|users|] == User(NatToString(|users| + 1), username, email, password)
              && auth.token == TokenPrefix + NatToString(|users| + 1)
              && auth.user == PublicUser(NatToString(|users| + 1), username, email)
  {
    if EmailTaken(users, email) then
      Failure(UserInputError(DuplicateEmailMessage))
    else
      var newUser := User(NatToString(|users| + 1), username, email, password);
      Success((users + [newUser], AuthFor(newUser)))
  }

  /** `login`: an unknown email is an input error; a known email whose first
      account has a different password is an authentication error. */
  function Login(users: seq<User>, email: string, password: string): (r: Result<AuthResponse, AuthError>)
    ensures !EmailTaken(users, email) <==> r == Failure(UserInputError(InvalidCredentialsMessage))
    ensures r.Success? <==>
              exists i :: 0 <= i < |users| && users[i].email == email
                          && (forall j :: 0 <= j < i ==> users[j].email != email)
                          && users[i].password == password
                          && r == Success(AuthFor(users[i]))
    ensures r == Failure(AuthenticationError(InvalidCredentialsMessage)) <==>
              exists i :: 0 <= i < |users| && users[i].email == email
                          && (forall j :: 0 <= j < i ==> users[j].email != email)
                          && users[i].password != password
    ensures r.Failure? ==> r.error.message == InvalidCredentialsMessage
  {
    match FindByEmail(users, email)
    case None => Failure(UserInputError(InvalidCredentialsMessage))
    case Some(i) =>
      if users[i].password != password then
        Failure(AuthenticationError(InvalidCredentialsMessage))
      else
        Success(AuthFor(users[i]))
  }

  /** The registry invariant: the i-th account (from zero) has id i + 1, so
      ids are distinct, and no two accounts share an email. */
  ghost predicate Registry(users: seq<User>) {
    && (forall i :: 0 <= i < |users| ==> users[i].id == NatToString(i + 1))
    && (forall i, j :: 0 <= i < j < |users| ==> users[i].email != users[j].email)
  }

  lemma InitialRegistry()
    ensures Registry(InitialUsers)
  {
    assert NatToString(1) == "1";
  }

  /** Ids in a registry are pairwise distinct. */
  lemma RegistryIdsDistinct(users: seq<User>, i: int, j: int)
    requires Registry(users)
    requires 0 <= i < j < |users|
    ensures users[i].id != users[j].id
  {
    NatToStringInjective(i + 1, j + 1);
  }

  /** One register call, successful or not, keeps the registry invariant. */
  lemma RegisterKeepsRegistry(users: seq<User>, username: string, email: string, password: string)
    requires Registry(users)
    ensures match Register(users, username, email, password)
            case Success((after, _)) => Registry(after)
            case Failure(_) => true
  {
  }

  /** The arguments of one `register` call. */
  datatype RegisterArgs = RegisterArgs(username: string, email: string, password: string)

  /** A sequence of `register` calls; a refused call leaves the list as it was. */
  function RegisterAll(users: seq<User>, calls: seq<RegisterArgs>): seq<User>
    decreases |calls|
  {
    if |calls| == 0 then users
    else
      var c := calls[0];
      var next := match Register(users, c.username, c.email, c.password)
                  case Success((after, _)) => after
                  case Failure(_) => users;
      RegisterAll(next, calls[1..])
  }

  /** Across any sequence of register calls starting from the fixture, emails
      stay pairwise distinct and ids stay distinct. */
  lemma {:induction false} RegisterAllKeepsRegistry(users: seq<User>, calls: seq<RegisterArgs>)
    requires Registry(users)
    ensures Registry(RegisterAll(users, calls))
    decreases |calls|
  {
    if |calls| > 0 {
      var c := calls[0];
      RegisterKeepsRegistry(users, c.username, c.email, c.password);
      var next := match Register(users, c.username, c.email, c.password)
                  case Success((after, _)) => after
                  case Failure(_) => users;
      RegisterAllKeepsRegistry(next, calls[1..]);
    }
  }

  /** A fresh registration can log in straight away with the same password,
      and gets the same token and public record that registering returned. */
  lemma LoginAfterRegister(users: seq<User>, username: string, email: string, password: string)
    requires !EmailTaken(users, email)
    ensures var r := Register(users, username, email, password);
            r.Success? && Login(r.value.0, email, password) == Success(r.value.1)
  {
    var after := users + [User(NatToString(|users| + 1), username, email, password)];
    assert forall j :: 0 <= j < |users| ==> after[j] == users[j];
    assert after[|users|].email == email;
    var found := FindByEmail(after, email);
    assert found.Some?;
    assert found.value == |users|;
  }

  /** `ctx.state.rateLimit?.identifier || ctx.ip`: the identifier the
      middleware recorded, unless absent or empty, else the client address. */
  function StatusIdentifier(rateLimit: Option<RateLimitState>, ip: string): (id: string)
    ensures rateLimit.Some? && rateLimit.value.identifier != "" ==> id == rateLimit.value.identifier
    ensures rateLimit.None? || rateLimit.value.identifier == "" ==> id == ip
  {
    if rateLimit.Some? && rateLimit.value.identifier != "" then rateLimit.value.identifier else ip
  }

  /** The `tokenStatus` query: reports through `getTokenStatus` with the
      configured capacity, for the identifier chosen above. */
  function TokenStatusQuery(store: Store, rateLimit: Option<RateLimitState>, ip: string, configuredCapacity: int, now: int)
    : (r: (Store, TokenStatus))
    ensures r.0 == GetOrCreateBucket(store, StatusIdentifier(rateLimit, ip), configuredCapacity, now)
    ensures r.1.maxTokens == configuredCapacity
    ensures r.1.availableTokens == AvailableTokens(store, StatusIdentifier(rateLimit, ip), configuredCapacity, now)
  {
    GetTokenStatus(store, StatusIdentifier(rateLimit, ip), configuredCapacity, now)
  }

  /** A token-status request end to end: the middleware, whatever capacity it
      runs with, lets it through untouched, then the resolver reads the status
      with the configured capacity. In a store within that configured
      capacity no bucket ever loses a token, whatever its level, including
      zero. */
  lemma StatusRequestNeverConsumes(
    store: Store, middlewareCapacity: int, configuredCapacity: int, id: string, ip: string, text: string,
    now: int, headers: Headers)
    requires StoreWithinCapacity(store, configuredCapacity)
    requires Contains(text, TokenStatusMarker)
    ensures var step := Handle(store, middlewareCapacity, id, Object(TextQuery(text)), now, now, Returned, headers);
            var status := TokenStatusQuery(step.store, Some(step.rateLimit), ip, configuredCapacity, now);
            && step.verdict == Bypassed(Returned)
            && step.headers == headers
            && forall other :: other in store ==> other in status.0 && store[other].tokens <= status.0[other].tokens
  {
  }

  /** The two capacities can disagree: the middleware honours
      `options.capacity`, the status resolver always uses the configured one.
      A bucket the middleware kept at 8 of 10 tokens, read by the resolver
      with a configured capacity of 5 once an hour has passed, is cut to 5. */
  lemma StatusQueryCapsAtConfiguredCapacity()
    ensures var store := map["client" := BucketState(8, 0, 0)];
            var status := TokenStatusQuery(store, Some(RateLimitState("client", 10)), "ip", 5, MillisecondsInHour);
            status.0["client"].tokens == 5 && status.1.availableTokens == 5
  {
    var b := BucketState(8, 0, 0);
    assert TokensToAdd(0, MillisecondsInHour) == 1;
    assert Refill(b, 5, MillisecondsInHour).tokens == 5;
  }
}
