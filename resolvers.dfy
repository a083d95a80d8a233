/** server/src/schemas/resolvers.ts: the GraphQL resolvers over the `User`
    collection. `me`, `saveBook` and `deleteBook` demand an authenticated
    context and act only on the caller's own document; `user`, `login` and
    `createUser` do not look at the context. Each call is one atomic step
    on the collection. */
module Resolvers {
  import opened Wrappers
  import opened JsString
  import opened Errors
  import opened Auth
  import opened SavedBooks

  /** A document of the `User` collection. `password` is whatever the schema
      stored for the password; it is only ever compared through the
      schema's `isCorrectPassword`. */
  datatype User = User(id: UserId, username: string, email: string, password: string,
                       savedBooks: seq<BookEntry>)

  /** The `input` argument of `createUser`. */
  datatype UserInput = UserInput(username: string, email: string, password: string)

  /** `{ token, user }`, the result of `createUser` and `login`. */
  datatype AuthPayload = AuthPayload(token: string, user: User)

  /** `context.user`: the claim `authenticateToken` attached, if any. */
  type Context = Option<Claim>

  /** What the resolvers use of the `User` schema (models/User.js, not part
      of this model): whether `User.create` accepts a new document given the
      collection, what it stores for a password, and
      `user.isCorrectPassword(candidate)` against the stored value. */
  datatype Schema = Schema(accepts: (map<UserId, User>, UserInput) -> bool,
                           hash: string -> string,
                           isCorrectPassword: (string, string) -> bool)

  const NotAuthenticated: string := "Not authenticated"
  const InvalidCredentials: string := "Invalid credentials"

  /** The payload `{ username, email, _id }` that `signToken(user)` builds
      when it is called, as at resolvers.ts:51 and :63, with the document as
      its only argument: positional binding makes `username` the whole
      document and leaves `email` and `_id` undefined. */
  datatype OneArgumentPayload = OneArgumentPayload(username: User, email: Option<string>, id: Option<UserId>)

  /** `signToken(user)` as resolvers.ts:51 and :63 call it. */
  function SignTokenWithDocument(user: User, secret: Option<string>, jwt: Jwt<OneArgumentPayload>, now: int)
    : (r: Result<string, Failure>)
    ensures r.Failure? <==> !Truthy(secret)
    ensures r.Failure? ==> r.error == Error(SecretMissing)
    ensures r.Success? ==> r.value == jwt.sign(OneArgumentPayload(user, None, None), secret.value, now, TokenLifetime)
  {
    SignData(OneArgumentPayload(user, None, None), secret, jwt, now)
  }

  /** A token `signToken(user)` issued, sent back before it expires, makes
      `authenticateToken` attach a `req.user` whose `_id` is undefined: the
      filter `{ _id: context.user._id }` of `me`, `saveBook` and `deleteBook`
      then never names the caller's document. */
  lemma DocumentTokenCarriesNoId(user: User, secret: Option<string>, jwt: Jwt<OneArgumentPayload>,
                                 issuedAt: int, now: int)
    requires Lawful(jwt)
    requires SignTokenWithDocument(user, secret, jwt, issuedAt).Success?
    requires now < issuedAt + TokenLifetime
    ensures var token := SignTokenWithDocument(user, secret, jwt, issuedAt).value;
            var claim := RequestClaim(None, None, Some("Bearer " + token), secret, jwt, now);
            claim == Some(OneArgumentPayload(user, None, None)) && claim.value.id.None?
  {
    SignedDataAuthenticates(OneArgumentPayload(user, None, None), secret, jwt, issuedAt, now);
  }

  /** The collection: every document is stored under its own `_id`,
      `order` lists each `_id` once, in natural order, and no document saves
      the same book twice (`$addToSet` and `$pull` are the only updates). */
  ghost predicate WellFormed(users: map<UserId, User>, order: seq<UserId>) {
    && (forall id :: id in users ==> users[id].id == id)
    && (forall id :: id in users <==> id in order)
    && (forall i, j :: 0 <= i < j < |order| ==> order[i] != order[j])
    && (forall id :: id in users ==> IsSet(users[id].savedBooks))
  }

  /** `User.findOne({ _id: id })`. */
  function FindById(users: map<UserId, User>, id: UserId): (r: Option<User>)
    ensures r.Some? <==> id in users
    ensures r.Some? ==> r.value == users[id]
  {
    if id in users then Some(users[id]) else None
  }

  /** The position, in natural order, of the first document whose email is
      `email`; `|order|` when there is none. */
  function FirstWithEmail(users: map<UserId, User>, order: seq<UserId>, email: string): (k: nat)
    requires forall i :: 0 <= i < |order| ==> order[i] in users
    ensures k <= |order|
    ensures forall j :: 0 <= j < k ==> users[order[j]].email != email
    ensures k < |order| ==> users[order[k]].email == email
  {
    if order == [] then 0
    else if users[order[0]].email == email then 0
    else 1 + FirstWithEmail(users, order[1..], email)
  }

  /** `User.findOne({ email })`: the first matching document in natural
      order, or nothing when no document has that email. */
  function FindByEmail(users: map<UserId, User>, order: seq<UserId>, email: string): (r: Option<User>)
    requires forall i :: 0 <= i < |order| ==> order[i] in users
    ensures r.Some? <==> exists i :: 0 <= i < |order| && users[order[i]].email == email
    ensures r.Some? ==> r.value.email == email && r.value in users.Values
    ensures r.Some? ==> exists k :: 0 <= k < |order| && r.value == users[order[k]] &&
                                    forall j :: 0 <= j < k ==> users[order[j]].email != email
  {
    var k := FirstWithEmail(users, order, email);
    if k < |order| then Some(users[order[k]]) else None
  }

  /** `findOneAndUpdate({ _id: id }, { $addToSet: { savedBooks: { bookId } } })`
      on the collection: only the document `id` changes, and only in its
      `savedBooks`, which keeps every entry and gains `{ bookId }`. */
  function SaveBookIn(users: map<UserId, User>, id: UserId, bookId: string): (r: map<UserId, User>)
    ensures r.Keys == users.Keys
    ensures forall other :: other in users && other != id ==> r[other] == users[other]
    ensures id in users ==> r[id].(savedBooks := users[id].savedBooks) == users[id]
    ensures id in users ==> users[id].savedBooks <= r[id].savedBooks && BookEntry(bookId) in r[id].savedBooks
    ensures id in users ==> r[id].savedBooks == AddToSet(users[id].savedBooks, BookEntry(bookId))
  {
    if id in users
    then users[id := users[id].(savedBooks := AddToSet(users[id].savedBooks, BookEntry(bookId)))]
    else users
  }

  /** `findOneAndUpdate({ _id: id }, { $pull: { savedBooks: { bookId } } })`
      on the collection: only the document `id` changes, and only in its
      `savedBooks`, which loses every entry with that `bookId`. */
  function DeleteBookIn(users: map<UserId, User>, id: UserId, bookId: string): (r: map<UserId, User>)
    ensures r.Keys == users.Keys
    ensures forall other :: other in users && other != id ==> r[other] == users[other]
    ensures id in users ==> r[id].(savedBooks := users[id].savedBooks) == users[id]
    ensures id in users ==> forall e :: e in r[id].savedBooks <==> e in users[id].savedBooks && e.bookId != bookId
    ensures id in users ==> r[id].savedBooks == Pull(users[id].savedBooks, bookId)
  {
    if id in users
    then users[id := users[id].(savedBooks := Pull(users[id].savedBooks, bookId))]
    else users
  }

  /** Saving the same book twice leaves the collection as saving it once. */
  lemma SaveBookIdempotent(users: map<UserId, User>, id: UserId, bookId: string)
    ensures SaveBookIn(SaveBookIn(users, id, bookId), id, bookId) == SaveBookIn(users, id, bookId)
  {
    if id in users {
      AddToSetIdempotent(users[id].savedBooks, BookEntry(bookId));
    }
  }

  /** Deleting a book the caller has not saved changes nothing. */
  lemma DeleteAbsentIsNoOp(users: map<UserId, User>, id: UserId, bookId: string)
    requires id in users ==> BookEntry(bookId) !in users[id].savedBooks
    ensures DeleteBookIn(users, id, bookId) == users
  {
    if id in users {
      PullAbsentIsNoOp(users[id].savedBooks, bookId);
      assert users[id].(savedBooks := users[id].savedBooks) == users[id];
    }
  }

  /** Saving a book the caller had not saved and then deleting it gives back
      the collection as it was. */
  lemma SaveThenDeleteRestoresStore(users: map<UserId, User>, id: UserId, bookId: string)
    requires id in users ==> BookEntry(bookId) !in users[id].savedBooks
    ensures DeleteBookIn(SaveBookIn(users, id, bookId), id, bookId) == users
  {
    if id in users {
      SaveThenDeleteRestores(users[id].savedBooks, bookId);
      assert users[id].(savedBooks := users[id].savedBooks) == users[id];
    }
  }

  /** The `User` collection, updated in place by the mutations. */
  class UserStore {
    var users: map<UserId, User>
    /** The collection's natural order, which decides which document
        `findOne` returns when several match. */
    var order: seq<UserId>

    ghost predicate Valid()
      reads this
    {
      WellFormed(users, order)
    }

    constructor ()
      ensures Valid() && users == map[] && order == []
    {
      users := map[];
      order := [];
    }

    /** `Query.user`: the document with `_id == userId`, or null; anyone may
        ask. */
    function FindUser(userId: UserId): (r: Option<User>)
      reads this
      requires Valid()
      ensures r.Some? <==> userId in users
      ensures r.Some? ==> r.value.id == userId && r.value == users[userId]
    {
      FindById(users, userId)
    }

    /** `Query.me`: `Not authenticated` without a claim; otherwise the
        caller's own document, or null when it no longer exists. */
    function Me(context: Context): (r: Result<Option<User>, Failure>)
      reads this
      requires Valid()
      ensures context.None? ==> r == Failure(AuthenticationError(NotAuthenticated))
      ensures context.Some? ==> r.Success? && (r.value.Some? <==> context.value.id in users)
      ensures context.Some? && r.value.Some? ==>
                r.value.value == users[context.value.id] && r.value.value.id == context.value.id
    {
      if context.Some? then Success(FindById(users, context.value.id))
      else Failure(AuthenticationError(NotAuthenticated))
    }

    /** The credential check of `Mutation.login`: the document found by
        `findOne({ email })` when its password matches; one `Invalid
        credentials` error for a missing document and for a wrong password. */
    function CheckCredentials(email: string, password: string, schema: Schema): (r: Result<User, Failure>)
      reads this
      requires Valid()
      ensures r.Success? <==>
                (var found := FindByEmail(users, order, email);
                 found.Some? && schema.isCorrectPassword(found.value.password, password))
      ensures r.Success? ==> r.value.email == email && r.value.id in users && users[r.value.id] == r.value
      ensures r.Success? ==> r.value == FindByEmail(users, order, email).value
      ensures r.Failure? ==> r.error == AuthenticationError(InvalidCredentials)
    {
      var found := FindByEmail(users, order, email);
      if found.None? then Failure(AuthenticationError(InvalidCredentials))
      else if !schema.isCorrectPassword(found.value.password, password) then
        Failure(AuthenticationError(InvalidCredentials))
      else Success(found.value)
    }

    /** `Mutation.login`, with the token signed as `signToken(user.username,
        user.email, user._id)`: a token and the document only when some
        document has that email and the password matches it. */
    function Login(email: string, password: string, schema: Schema,
                   secret: Option<string>, jwt: Jwt<Claim>, now: int): (r: Result<AuthPayload, Failure>)
      reads this
      requires Valid()
      ensures r.Success? <==>
                (var found := FindByEmail(users, order, email);
                 found.Some? && schema.isCorrectPassword(found.value.password, password) && Truthy(secret))
      ensures r.Success? ==>
                var u := r.value.user;
                u.email == email && u.id in users && users[u.id] == u &&
                r.value.token == jwt.sign(Claim(u.username, u.email, u.id), secret.value, now, TokenLifetime)
      ensures r.Success? ==> r.value.user == CheckCredentials(email, password, schema).value
      ensures r.Failure? ==>
                r.error == if CheckCredentials(email, password, schema).Failure?
                           then AuthenticationError(InvalidCredentials) else Error(SecretMissing)
    {
      match CheckCredentials(email, password, schema)
      case Failure(e) => Failure(e)
      case Success(u) =>
        match SignToken(u.username, u.email, u.id, secret, jwt, now)
        case Success(token) => Success(AuthPayload(token, u))
        case Failure(e) => Failure(e)
    }

    /** `Mutation.login` as resolvers.ts:63 is written: `signToken(user)`
        binds the document to `username` and leaves `email` and `_id`
        undefined. */
    function LoginAsWritten(email: string, password: string, schema: Schema,
                            secret: Option<string>, jwt: Jwt<OneArgumentPayload>, now: int)
      : (r: Result<AuthPayload, Failure>)
      reads this
      requires Valid()
      ensures r.Success? <==> CheckCredentials(email, password, schema).Success? && Truthy(secret)
      ensures r.Success? ==>
                r.value.user == CheckCredentials(email, password, schema).value &&
                r.value.token == jwt.sign(OneArgumentPayload(r.value.user, None, None), secret.value, now, TokenLifetime)
      ensures r.Failure? ==>
                r.error == if CheckCredentials(email, password, schema).Failure?
                           then AuthenticationError(InvalidCredentials) else Error(SecretMissing)
    {
      match CheckCredentials(email, password, schema)
      case Failure(e) => Failure(e)
      case Success(u) =>
        match SignTokenWithDocument(u, secret, jwt, now)
        case Success(token) => Success(AuthPayload(token, u))
        case Failure(e) => Failure(e)
    }

    /** `Mutation.createUser`: `User.create` stores the new document (or the
        schema refuses it and nothing changes); the token is signed after the
        document is stored, so a missing secret fails the call but keeps the
        new user. `newId` is the fresh `_id` the store assigns. */
    method CreateUser(input: UserInput, newId: UserId, schema: Schema,
                      secret: Option<string>, jwt: Jwt<Claim>, now: int) returns (r: Result<AuthPayload, Failure>)
      requires Valid()
      requires newId !in users
      modifies this
      ensures Valid()
      ensures !schema.accepts(old(users), input) ==>
                users == old(users) && order == old(order) && r == Failure(CreateRefused)
      ensures schema.accepts(old(users), input) ==>
                var created := User(newId, input.username, input.email, schema.hash(input.password), []);
                && users == old(users)[newId := created]
                && order == old(order) + [newId]
                && (Truthy(secret) ==>
                      r == Success(AuthPayload(jwt.sign(Claim(input.username, input.email, newId),
                                                        secret.value, now, TokenLifetime), created)))
                && (!Truthy(secret) ==> r == Failure(Error(SecretMissing)))
    {
      if !schema.accepts(users, input) {
        return Failure(CreateRefused);
      }
      var created := User(newId, input.username, input.email, schema.hash(input.password), []);
      users := users[newId := created];
      order := order + [newId];
      // resolvers.ts:51 passes the document as signToken's only argument
      // (see OneArgumentPayload); the model signs its three fields.
      var token := SignToken(created.username, created.email, created.id, secret, jwt, now);
      match token
      case Success(t) => r := Success(AuthPayload(t, created));
      case Failure(e) => r := Failure(e);
    }

    /** `Mutation.saveBook`: `Not authenticated` and no change without a
        claim; otherwise `$addToSet` on the caller's own document only,
        returning it as updated, or null when it does not exist. */
    method SaveBook(context: Context, bookId: string) returns (r: Result<Option<User>, Failure>)
      requires Valid()
      modifies this
      ensures Valid() && order == old(order)
      ensures context.None? ==> users == old(users) && r == Failure(AuthenticationError(NotAuthenticated))
      ensures context.Some? ==>
                users == SaveBookIn(old(users), context.value.id, bookId) &&
                r == Success(FindById(users, context.value.id))
    {
      if context.None? {
        return Failure(AuthenticationError(NotAuthenticated));
      }
      var id := context.value.id;
      if id in users {
        UpdatesKeepSet(users[id].savedBooks, bookId);
        var updated := users[id].(savedBooks := AddToSet(users[id].savedBooks, BookEntry(bookId)));
        users := users[id := updated];
        r := Success(Some(updated));
      } else {
        r := Success(None);
      }
    }

    /** `Mutation.deleteBook`: `Not authenticated` and no change without a
        claim; otherwise `$pull` on the caller's own document only,
        returning it as updated, or null when it does not exist. */
    method DeleteBook(context: Context, bookId: string) returns (r: Result<Option<User>, Failure>)
      requires Valid()
      modifies this
      ensures Valid() && order == old(order)
      ensures context.None? ==> users == old(users) && r == Failure(AuthenticationError(NotAuthenticated))
      ensures context.Some? ==>
                users == DeleteBookIn(old(users), context.value.id, bookId) &&
                r == Success(FindById(users, context.value.id))
    {
      if context.None? {
        return Failure(AuthenticationError(NotAuthenticated));
      }
      var id := context.value.id;
      if id in users {
        UpdatesKeepSet(users[id].savedBooks, bookId);
        var updated := users[id].(savedBooks := Pull(users[id].savedBooks, bookId));
        users := users[id := updated];
        r := Success(Some(updated));
      } else {
        r := Success(None);
      }
    }
  }

  /** `login` answers an unknown email and a wrong password with the same
      error. */
  lemma LoginFailuresAlike(store: UserStore, email: string, password: string, schema: Schema,
                           secret: Option<string>, jwt: Jwt<Claim>, now: int)
    requires store.Valid()
    requires var found := FindByEmail(store.users, store.order, email);
             found.None? || !schema.isCorrectPassword(found.value.password, password)
    ensures store.Login(email, password, schema, secret, jwt, now) == Failure(AuthenticationError(InvalidCredentials))
  {
  }

  /** With the token signed for the document's username, email and `_id`
      (`Login`), a token `login` issued, sent back as a bearer header before
      it expires, authenticates the caller as that user, and `me` then
      returns that user's document. As resolvers.ts:63 is written this does
      not hold: see `LoginAsWrittenLosesId`. */
  lemma LoginThenMe(store: UserStore, email: string, password: string, schema: Schema,
                    secret: Option<string>, jwt: Jwt<Claim>, issuedAt: int, now: int)
    requires store.Valid() && Lawful(jwt)
    requires store.Login(email, password, schema, secret, jwt, issuedAt).Success?
    requires now < issuedAt + TokenLifetime
    ensures var p := store.Login(email, password, schema, secret, jwt, issuedAt).value;
            var context := RequestClaim(None, None, Some("Bearer " + p.token), secret, jwt, now);
            && context == Some(Claim(p.user.username, p.user.email, p.user.id))
            && store.Me(context) == Success(Some(p.user))
  {
    var p := store.Login(email, password, schema, secret, jwt, issuedAt).value;
    SignedTokenAuthenticates(p.user.username, p.user.email, p.user.id, secret, jwt, issuedAt, now);
  }

  /** As resolvers.ts:63 is written, the token `login` issued, sent back
      before it expires, attaches a `req.user` with the document under
      `username` and no `_id`, so `me` does not look up the caller. */
  lemma LoginAsWrittenLosesId(store: UserStore, email: string, password: string, schema: Schema,
                              secret: Option<string>, jwt: Jwt<OneArgumentPayload>, issuedAt: int, now: int)
    requires store.Valid() && Lawful(jwt)
    requires store.LoginAsWritten(email, password, schema, secret, jwt, issuedAt).Success?
    requires now < issuedAt + TokenLifetime
    ensures var p := store.LoginAsWritten(email, password, schema, secret, jwt, issuedAt).value;
            var context := RequestClaim(None, None, Some("Bearer " + p.token), secret, jwt, now);
            && context == Some(OneArgumentPayload(p.user, None, None))
            && context.value.id != Some(p.user.id)
  {
    var p := store.LoginAsWritten(email, password, schema, secret, jwt, issuedAt).value;
    DocumentTokenCarriesNoId(p.user, secret, jwt, issuedAt, now);
  }
}
