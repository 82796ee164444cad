/** The tables of user.py: `User`, `RepairRequest`, `Quote` and `RepairImage`
    rows, their column defaults, the uniqueness constraints on users, the
    password hash stored on a user, and the `to_dict` projections that every
    route returns. Timestamps are integer seconds. */
module Models {
  import opened Common

  // Values of the string columns that the code writes or compares against.
  const CLIENT := "client"
  const REPAIRER := "repairer"
  const ADMIN := "admin"

  const ACTIVE := "active"
  const SUSPENDED := "suspended"
  const PENDING_VERIFICATION := "pending_verification"

  const DRAFT := "draft"
  const OPEN := "open"
  const QUOTED := "quoted"
  const ACCEPTED := "accepted"
  const IN_PROGRESS := "in_progress"
  const DONE := "done"
  const RATED := "rated"
  const CLOSED := "closed"

  const PUBLIC := "public"

  const PENDING := "pending"
  const REJECTED := "rejected"
  const DOMICILE := "domicile"

  // ---------------------------------------------------------------------
  // Password hash
  // ---------------------------------------------------------------------

  /** What `password_hash` holds: the salt and the derived digest. */
  datatype PasswordHash = PasswordHash(salt: string, digest: seq<int>)

  const CHAR_RANGE := 0x11_0000

  /** Stand-in for werkzeug's key derivation. It is not a real hash; the model
      relies only on its being injective in the password for a fixed salt. */
  function Digest(salt: string, password: string): seq<int> {
    seq(|password|, i requires 0 <= i < |password| => (|salt| + i) * CHAR_RANGE + password[i] as int)
  }

  /** `generate_password_hash(password)`, with the random salt as a parameter. */
  function HashPassword(salt: string, password: string): (h: PasswordHash)
    ensures h.salt == salt
    ensures CheckPassword(h, password)
  {
    PasswordHash(salt, Digest(salt, password))
  }

  /** `check_password_hash(hash, password)`: recomputes the digest under the
      stored salt; the plaintext is never compared with what is stored. */
  predicate CheckPassword(h: PasswordHash, password: string) {
    h.digest == Digest(h.salt, password)
  }

  /** After `set_password(p)`, `check_password(q)` holds exactly when q is p. */
  lemma {:induction false} CheckPasswordIff(salt: string, p: string, q: string)
    ensures CheckPassword(HashPassword(salt, p), q) <==> p == q
  {
    if CheckPassword(HashPassword(salt, p), q) {
      var dp, dq := Digest(salt, p), Digest(salt, q);
      assert |p| == |dp| == |dq| == |q|;
      forall i | 0 <= i < |p| ensures p[i] == q[i] {
        assert dp[i] == dq[i];
        assert p[i] as int == q[i] as int;
      }
    }
  }

  // ---------------------------------------------------------------------
  // Rows
  // ---------------------------------------------------------------------

  datatype User = User(
    id: int,
    username: string,
    email: string,
    passwordHash: PasswordHash,
    role: string,
    status: string,
    city: Option<string>,
    bio: Option<string>,
    phone: Option<string>,
    avatarUrl: Option<string>,
    createdAt: int,
    verifiedAt: Option<int>)

  /** The latitude and longitude columns are floating point and not modelled. */
  datatype RepairRequest = RepairRequest(
    id: int,
    title: string,
    description: string,
    category: string,
    subcategory: Option<string>,
    city: string,
    address: Option<string>,
    budgetMin: Option<int>,
    budgetMax: Option<int>,
    status: string,
    visibility: string,
    clientId: int,
    acceptedQuoteId: Option<int>,
    createdAt: int,
    updatedAt: int)

  /** `price` is in cents. */
  datatype Quote = Quote(
    id: int,
    requestId: int,
    repairerId: int,
    price: int,
    estimatedDuration: Option<string>,
    conditions: Option<string>,
    locationType: string,
    status: string,
    createdAt: int)

  datatype RepairImage = RepairImage(
    id: int,
    requestId: int,
    filename: string,
    url: string,
    createdAt: int)

  /** A `User(...)` built with the mandatory columns only: every other column
      takes its declared default (role client, status active) or is null. */
  function NewUser(id: int, username: string, email: string, hash: PasswordHash, now: int): (u: User)
    ensures u.role == CLIENT && u.status == ACTIVE
    ensures u.verifiedAt.None? && u.avatarUrl.None? && u.createdAt == now
    ensures u.id == id && u.username == username && u.email == email && u.passwordHash == hash
  {
    User(id, username, email, hash, CLIENT, ACTIVE, None, None, None, None, now, None)
  }

  /** A `RepairRequest(...)` built with the mandatory columns only: status
      open, visibility public, no accepted quote, created_at = updated_at. */
  function NewRequest(id: int, title: string, description: string, category: string, city: string,
                      clientId: int, now: int): (r: RepairRequest)
    ensures r.status == OPEN && r.visibility == PUBLIC && r.acceptedQuoteId.None?
    ensures r.createdAt == now && r.updatedAt == now
    ensures r.id == id && r.clientId == clientId
    ensures r.title == title && r.description == description && r.category == category && r.city == city
    ensures r.subcategory.None? && r.address.None? && r.budgetMin.None? && r.budgetMax.None?
  {
    RepairRequest(id, title, description, category, None, city, None, None, None,
                  OPEN, PUBLIC, clientId, None, now, now)
  }

  /** A `Quote(...)` built with the mandatory columns only: status pending,
      location domicile. */
  function NewQuote(id: int, requestId: int, repairerId: int, price: int, now: int): (q: Quote)
    ensures q.status == PENDING && q.locationType == DOMICILE
    ensures q.id == id && q.requestId == requestId && q.repairerId == repairerId && q.price == price
    ensures q.createdAt == now && q.estimatedDuration.None? && q.conditions.None?
  {
    Quote(id, requestId, repairerId, price, None, None, DOMICILE, PENDING, now)
  }

  // ---------------------------------------------------------------------
  // Keys, uniqueness and lookups
  // ---------------------------------------------------------------------

  function UserCreated(u: User): int { u.createdAt }
  function RequestCreated(r: RepairRequest): int { r.createdAt }
  function QuoteCreated(q: Quote): int { q.createdAt }

  /** The primary key and the two `unique=True` columns of the user table. */
  ghost predicate UniqueUsers(users: seq<User>) {
    forall i, j :: 0 <= i < j < |users| ==>
      users[i].id != users[j].id && users[i].username != users[j].username && users[i].email != users[j].email
  }

  ghost predicate UniqueRequestIds(requests: seq<RepairRequest>) {
    forall i, j :: 0 <= i < j < |requests| ==> requests[i].id != requests[j].id
  }

  ghost predicate UniqueQuoteIds(quotes: seq<Quote>) {
    forall i, j :: 0 <= i < j < |quotes| ==> quotes[i].id != quotes[j].id
  }

  /** `User.query.get(id)`. */
  function FindUser(users: seq<User>, id: int): (r: Option<nat>)
    ensures r.Some? ==> r.value < |users| && users[r.value].id == id
    ensures r.Some? ==> forall k :: 0 <= k < r.value ==> users[k].id != id
    ensures r.None? ==> forall k :: 0 <= k < |users| ==> users[k].id != id
  {
    FindFirst(users, (u: User) => u.id == id)
  }

  /** `User.query.filter_by(email=email).first()`. */
  function FindUserByEmail(users: seq<User>, email: string): (r: Option<nat>)
    ensures r.Some? ==> r.value < |users| && users[r.value].email == email
    ensures r.Some? ==> forall k :: 0 <= k < r.value ==> users[k].email != email
    ensures r.None? ==> forall k :: 0 <= k < |users| ==> users[k].email != email
  {
    FindFirst(users, (u: User) => u.email == email)
  }

  /** `User.query.filter_by(username=username).first()`. */
  function FindUserByUsername(users: seq<User>, username: string): (r: Option<nat>)
    ensures r.Some? ==> r.value < |users| && users[r.value].username == username
    ensures r.Some? ==> forall k :: 0 <= k < r.value ==> users[k].username != username
    ensures r.None? ==> forall k :: 0 <= k < |users| ==> users[k].username != username
  {
    FindFirst(users, (u: User) => u.username == username)
  }

  /** `RepairRequest.query.get(id)`. */
  function FindRequest(requests: seq<RepairRequest>, id: int): (r: Option<nat>)
    ensures r.Some? ==> r.value < |requests| && requests[r.value].id == id
    ensures r.Some? ==> forall k :: 0 <= k < r.value ==> requests[k].id != id
    ensures r.None? ==> forall k :: 0 <= k < |requests| ==> requests[k].id != id
  {
    FindFirst(requests, (r: RepairRequest) => r.id == id)
  }

  /** `Quote.query.get(id)`. */
  function FindQuote(quotes: seq<Quote>, id: int): (r: Option<nat>)
    ensures r.Some? ==> r.value < |quotes| && quotes[r.value].id == id
    ensures r.Some? ==> forall k :: 0 <= k < r.value ==> quotes[k].id != id
    ensures r.None? ==> forall k :: 0 <= k < |quotes| ==> quotes[k].id != id
  {
    FindFirst(quotes, (q: Quote) => q.id == id)
  }

  /** A quote of request `rid`. */
  function OfRequest(rid: int): Quote -> bool {
    (q: Quote) => q.requestId == rid
  }

  /** `len(request.quotes)`: the quotes whose `repair_request_id` is `rid`. */
  function QuoteCount(quotes: seq<Quote>, rid: int): (n: nat)
    ensures n == |Filter(quotes, OfRequest(rid))|
    ensures n <= |quotes|
    ensures n == 0 <==> forall k :: 0 <= k < |quotes| ==> quotes[k].requestId != rid
  {
    Count(quotes, OfRequest(rid))
  }

  // ---------------------------------------------------------------------
  // to_dict projections
  // ---------------------------------------------------------------------

  /** A JSON value as the routes emit it; timestamps are emitted as integers. */
  datatype Json = JNull | JInt(n: int) | JStr(s: string) | JObject(fields: map<string, Json>)

  function OptStr(o: Option<string>): Json {
    if o.Some? then JStr(o.value) else JNull
  }

  function OptInt(o: Option<int>): Json {
    if o.Some? then JInt(o.value) else JNull
  }

  const USER_KEYS: set<string> :=
    {"id", "username", "email", "role", "status", "city", "bio", "phone", "avatar_url",
     "created_at", "verified_at"}

  /** `User.to_dict()`: the public columns; the password hash is never among them.
      The map literal is the definition, each key copying its column; the
      contract pins the key set and the values other members rely on. */
  function UserToDict(u: User): (d: map<string, Json>)
    ensures d.Keys == USER_KEYS
    ensures "password_hash" !in d
    ensures d["id"] == JInt(u.id) && d["email"] == JStr(u.email) && d["role"] == JStr(u.role)
  {
    map["id" := JInt(u.id), "username" := JStr(u.username), "email" := JStr(u.email),
        "role" := JStr(u.role), "status" := JStr(u.status), "city" := OptStr(u.city),
        "bio" := OptStr(u.bio), "phone" := OptStr(u.phone), "avatar_url" := OptStr(u.avatarUrl),
        "created_at" := JInt(u.createdAt), "verified_at" := OptInt(u.verifiedAt)]
  }

  /** The `client` / `repairer` relationship: the owner's projection, or null
      when no user has that id. */
  function OwnerToDict(users: seq<User>, id: int): (j: Json)
    ensures FindUser(users, id).None? <==> j == JNull
    ensures FindUser(users, id).Some? ==> j == JObject(UserToDict(users[FindUser(users, id).value]))
  {
    match FindUser(users, id)
    case None => JNull
    case Some(k) => JObject(UserToDict(users[k]))
  }

  /** The keys of `RepairRequest.to_dict()` that copy a column. */
  const REQUEST_COLUMNS: set<string> :=
    {"id", "title", "description", "category", "subcategory", "city", "address", "budget_min",
     "budget_max", "status", "visibility", "client_id", "accepted_quote_id", "created_at",
     "updated_at"}

  const REQUEST_KEYS: set<string> := REQUEST_COLUMNS + {"quotes_count", "client"}

  /** The column part of `RepairRequest.to_dict()`. The map literal is the
      definition, each key copying its column; the contract pins the key set
      and the values other members rely on. */
  function RequestColumns(r: RepairRequest): (d: map<string, Json>)
    ensures d.Keys == REQUEST_COLUMNS
    ensures d["status"] == JStr(r.status) && d["client_id"] == JInt(r.clientId)
  {
    map["id" := JInt(r.id), "title" := JStr(r.title), "description" := JStr(r.description),
        "category" := JStr(r.category), "subcategory" := OptStr(r.subcategory),
        "city" := JStr(r.city), "address" := OptStr(r.address),
        "budget_min" := OptInt(r.budgetMin), "budget_max" := OptInt(r.budgetMax),
        "status" := JStr(r.status), "visibility" := JStr(r.visibility),
        "client_id" := JInt(r.clientId), "accepted_quote_id" := OptInt(r.acceptedQuoteId),
        "created_at" := JInt(r.createdAt), "updated_at" := JInt(r.updatedAt)]
  }

  /** `RepairRequest.to_dict()`, with `quotes_count` the number of quotes of
      this request and `client` the owner's projection. */
  function RequestToDict(r: RepairRequest, users: seq<User>, quotes: seq<Quote>): (d: map<string, Json>)
    ensures d.Keys == REQUEST_KEYS
    ensures d["quotes_count"] == JInt(QuoteCount(quotes, r.id))
    ensures d["client"] == OwnerToDict(users, r.clientId)
  {
    RequestColumns(r)["quotes_count" := JInt(QuoteCount(quotes, r.id))]["client" := OwnerToDict(users, r.clientId)]
  }

  const QUOTE_KEYS: set<string> :=
    {"id", "repair_request_id", "repairer_id", "price", "estimated_duration", "conditions",
     "location_type", "status", "created_at", "repairer"}

  /** `Quote.to_dict()`: the price stays in integer cents. The map literal is
      the definition, each key copying its column; the contract pins the key
      set and the values other members rely on. */
  function QuoteToDict(q: Quote, users: seq<User>): (d: map<string, Json>)
    ensures d.Keys == QUOTE_KEYS
    ensures d["price"] == JInt(q.price) && d["status"] == JStr(q.status)
    ensures d["repairer"] == OwnerToDict(users, q.repairerId)
  {
    map["id" := JInt(q.id), "repair_request_id" := JInt(q.requestId),
        "repairer_id" := JInt(q.repairerId), "price" := JInt(q.price),
        "estimated_duration" := OptStr(q.estimatedDuration), "conditions" := OptStr(q.conditions),
        "location_type" := JStr(q.locationType), "status" := JStr(q.status),
        "created_at" := JInt(q.createdAt), "repairer" := OwnerToDict(users, q.repairerId)]
  }

  /** `RepairImage.to_dict()`. */
  function ImageToDict(img: RepairImage): (d: map<string, Json>)
    ensures d.Keys == {"id", "repair_request_id", "filename", "url", "created_at"}
    ensures d["url"] == JStr(img.url) && d["repair_request_id"] == JInt(img.requestId)
  {
    map["id" := JInt(img.id), "repair_request_id" := JInt(img.requestId),
        "filename" := JStr(img.filename), "url" := JStr(img.url), "created_at" := JInt(img.createdAt)]
  }
}
