/** The upload variant of request creation in src/routes/repairs.py (the one
    the application registers): a multipart form with a photo, checked in a
    fixed order, the photo stored under a fresh name, and the caller's own
    requests. */
module RepairUploads {
  import opened Common
  import opened Models
  import opened Database
  import opened Repairs

  const ALLOWED_EXT: set<string> := {"jpg", "jpeg", "png", "webp"}
  const MAX_BYTES := 3 * 1024 * 1024
  /** The margin added to `MAX_BYTES` before a request body is refused. */
  const SIZE_SLACK := 512000

  /** `_require_login`: 401 when the session has no user id or that user no
      longer exists; otherwise the user's row. */
  function RequireLogin(users: seq<User>, uid: Option<int>): (g: Gate)
    ensures g.Refused? <==> uid.None? || FindUser(users, uid.value).None?
    ensures g.Refused? ==> g.code == 401
    ensures g.Admitted? ==> g.index < |users| && users[g.index].id == uid.value
  {
    if uid.None? then Refused(401)
    else match FindUser(users, uid.value)
      case None => Refused(401)
      case Some(i) => Admitted(i)
  }

  // ---------------------------------------------------------------------
  // File names
  // ---------------------------------------------------------------------

  /** The lower-cased text after the last `.` of the file name, or `""` when
      it has no `.` at all. */
  function Extension(filename: string): (ext: string)
    ensures '.' !in filename ==> ext == ""
    ensures '.' in filename ==>
      && |ext| < |filename| && filename[|filename| - |ext| - 1] == '.'
      && '.' !in filename[|filename| - |ext|..]
      && ext == Lower(filename[|filename| - |ext|..])
    ensures forall i :: 0 <= i < |ext| ==> !IsAsciiUpper(ext[i])
  {
    match LastIndexOf(filename, '.')
    case None => ""
    case Some(k) =>
      assert filename[|filename| - |filename[k + 1..]|..] == filename[k + 1..];
      Lower(filename[k + 1..])
  }

  /** The name the photo is saved under: a fresh hexadecimal token, a dot and
      the checked extension. */
  function StoredName(hex: string, ext: string): (name: string)
    ensures |name| == |hex| + 1 + |ext|
    ensures name[..|hex|] == hex && name[|hex|] == '.' && name[|hex| + 1..] == ext
  {
    hex + "." + ext
  }

  /** The URL under which the saved photo would be served. The handler
      computes it but the request table has none of the image columns it
      probes for, so it is neither stored nor returned. */
  function PublicPath(name: string): (path: string)
    ensures HasPrefix("/static/uploads/", path) && path[16..] == name
  {
    "/static/uploads/" + name
  }

  /** The extension of a stored name is the extension it was built from, so a
      photo saved under `<hex>.<ext>` is served with the type that was checked. */
  lemma {:induction false} ExtensionOfStoredName(hex: string, ext: string)
    requires '.' !in ext
    requires forall i :: 0 <= i < |ext| ==> !IsAsciiUpper(ext[i])
    ensures Extension(StoredName(hex, ext)) == ext
  {
    var name := StoredName(hex, ext);
    assert name[|hex|] == '.';
    var e := Extension(name);
    var k := |name| - |e| - 1;
    assert name[k] == '.';
    assert k == |hex|;
    assert name[k + 1..] == ext;
    assert Lower(ext) == ext;
  }

  // ---------------------------------------------------------------------
  // POST /api/repairs/requests (multipart form)
  // ---------------------------------------------------------------------

  /** The uploaded file: the name the client sent, and what `secure_filename`
      makes of it (the sanitiser itself is not part of this model, its result
      is given). */
  datatype Photo = Photo(filename: string, safeName: string)

  /** The form fields, the photo and the `Content-Length` header; `None` is
      an absent field, file or header. */
  datatype UploadForm = UploadForm(
    title: Option<string>, description: Option<string>, category: Option<string>, city: Option<string>,
    photo: Option<Photo>, contentLength: Option<int>)

  /** `(form.get(name) or "").strip()`. */
  function Field(o: Option<string>): (s: string)
    ensures s == [] <==> o.None? || forall i :: 0 <= i < |o.value| ==> IsSpace(o.value[i])
  {
    Strip(o.GetOr(""))
  }

  predicate FieldsPresent(form: UploadForm) {
    Field(form.title) != "" && Field(form.description) != "" && Field(form.category) != "" && Field(form.city) != ""
  }

  /** A file was sent under `photo` and the name the client gave it is not
      empty; the test looks at the name before sanitising. */
  predicate PhotoGiven(form: UploadForm) {
    form.photo.Some? && form.photo.value.filename != ""
  }

  /** A length header that is present, non-zero and above the limit. */
  predicate TooLarge(form: UploadForm) {
    form.contentLength.Some? && form.contentLength.value != 0 && form.contentLength.value > MAX_BYTES + SIZE_SLACK
  }

  /** The validation of `create_request`, in its order: blank fields 400, no
      photo 400, an extension outside the allowed four 415, a body too large
      413; 201 when every check passes. */
  function UploadDecision(form: UploadForm): (code: int)
    ensures code == 400 <==> !FieldsPresent(form) || !PhotoGiven(form)
    ensures code == 415 <==> FieldsPresent(form) && PhotoGiven(form) && Extension(form.photo.value.safeName) !in ALLOWED_EXT
    ensures code == 413 <==>
      FieldsPresent(form) && PhotoGiven(form) && Extension(form.photo.value.safeName) in ALLOWED_EXT && TooLarge(form)
    ensures code == 201 <==>
      FieldsPresent(form) && PhotoGiven(form) && Extension(form.photo.value.safeName) in ALLOWED_EXT && !TooLarge(form)
    ensures code == 400 || code == 415 || code == 413 || code == 201
  {
    if !FieldsPresent(form) then 400
    else if !PhotoGiven(form) then 400
    else if Extension(form.photo.value.safeName) !in ALLOWED_EXT then 415
    else if TooLarge(form) then 413
    else 201
  }

  /** A name the sanitiser empties (such as `...`) passes the photo check,
      which looks at the name as sent, and is then refused for its extension. */
  lemma SanitisedAwayIs415(form: UploadForm)
    requires FieldsPresent(form) && form.photo.Some? && form.photo.value.filename != "" && form.photo.value.safeName == ""
    ensures UploadDecision(form) == 415
  {
  }

  /** The status of the intended handler: the login gate, then the validation. */
  function UploadStatus(users: seq<User>, uid: Option<int>, form: UploadForm): (code: int)
    ensures code == 401 <==> RequireLogin(users, uid).Refused?
    ensures code != 401 ==> code == UploadDecision(form)
  {
    if RequireLogin(users, uid).Refused? then 401 else UploadDecision(form)
  }

  /** The status of the handler as written: building the row with the
      undeclared `user_id` keyword raises, so every request that passes the
      validation ends in 500. */
  function UploadStatusAsWritten(users: seq<User>, uid: Option<int>, form: UploadForm): (code: int)
    ensures code != 201
    ensures UploadStatus(users, uid, form) == 201 ==> code == 500
    ensures UploadStatus(users, uid, form) != 201 ==> code == UploadStatus(users, uid, form)
  {
    var c := UploadStatus(users, uid, form);
    if c == 201 then 500 else c
  }

  /** A form with every field filled, a photo saved as PNG and no length
      header passes the validation. */
  lemma PngUploadPasses(form: UploadForm)
    requires FieldsPresent(form) && form.photo == Some(Photo(StoredName("f", "png"), StoredName("f", "png"))) && form.contentLength.None?
    ensures UploadDecision(form) == 201
  {
    ExtensionOfStoredName("f", "png");
    assert "png" in ALLOWED_EXT;
  }

  /** A logged-in client sending a complete form with a PNG photo is answered
      201 by the intended handler and 500 by the handler as written. */
  lemma UploadAsWrittenRefusesValidForm(u: User, form: UploadForm)
    requires FieldsPresent(form) && form.photo == Some(Photo(StoredName("f", "png"), StoredName("f", "png"))) && form.contentLength.None?
    ensures UploadStatus([u], Some(u.id), form) == 201 && UploadStatusAsWritten([u], Some(u.id), form) == 500
  {
    PngUploadPasses(form);
    assert RequireLogin([u], Some(u.id)).Admitted?;
  }

  /** The row the intended handler inserts: the stripped fields, owned by the
      session user, status open, the single budget in both budget columns,
      created_at = updated_at. */
  function UploadedRequest(id: int, form: UploadForm, clientId: int, budget: int, now: int): (r: RepairRequest)
    ensures r.id == id && r.clientId == clientId && r.status == OPEN && r.visibility == PUBLIC
    ensures r.title == Field(form.title) && r.description == Field(form.description)
    ensures r.category == Field(form.category) && r.city == Field(form.city)
    ensures r.budgetMin == Some(budget) && r.budgetMax == Some(budget)
    ensures r.createdAt == now && r.updatedAt == now && r.acceptedQuoteId.None?
  {
    NewRequest(id, Field(form.title), Field(form.description), Field(form.category), Field(form.city), clientId, now)
      .(budgetMin := Some(budget), budgetMax := Some(budget))
  }

  /** `create_request` with the owner written to `client_id`. On 201 the photo
      is saved under `<hex>.<ext>` and the row is appended; on any other
      status nothing is saved or inserted. */
  method CreateRequest(store: Store, session: Session, form: UploadForm, hex: string, budget: int, now: int)
    returns (code: int)
    requires store.Valid()
    modifies store`requests, store`nextRequestId, store`uploads
    ensures store.Valid()
    ensures code == UploadStatus(old(store.users), session.userId, form)
    ensures code != 201 ==>
      && store.uploads == old(store.uploads)
      && store.requests == old(store.requests) && store.nextRequestId == old(store.nextRequestId)
    ensures code == 201 ==>
      var name := StoredName(hex, Extension(form.photo.value.safeName));
      && store.uploads == old(store.uploads) + [name]
      && store.requests == old(store.requests) + [UploadedRequest(old(store.nextRequestId), form, session.userId.value, budget, now)]
      && store.nextRequestId == old(store.nextRequestId) + 1
  {
    code := UploadStatus(store.users, session.userId, form);
    if code != 201 {
      return;
    }
    var name := StoredName(hex, Extension(form.photo.value.safeName));
    store.uploads := store.uploads + [name];
    var r := UploadedRequest(store.nextRequestId, form, session.userId.value, budget, now);
    AppendRequestKeepsTables(store.users, store.requests, store.quotes, store.nextUserId, store.nextRequestId, store.nextQuoteId, r);
    store.requests := store.requests + [r];
    store.nextRequestId := store.nextRequestId + 1;
  }

  /** `create_request` as written: the photo is saved once the validation
      passes, then the row cannot be built and the handler answers 500; the
      request table is never written. */
  method CreateRequestAsWritten(store: Store, session: Session, form: UploadForm, hex: string)
    returns (code: int)
    modifies store`uploads
    ensures code == UploadStatusAsWritten(store.users, session.userId, form)
    ensures UploadStatus(store.users, session.userId, form) == 201 ==>
      store.uploads == old(store.uploads) + [StoredName(hex, Extension(form.photo.value.safeName))]
    ensures UploadStatus(store.users, session.userId, form) != 201 ==> store.uploads == old(store.uploads)
  {
    code := UploadStatusAsWritten(store.users, session.userId, form);
    if UploadStatus(store.users, session.userId, form) == 201 {
      store.uploads := store.uploads + [StoredName(hex, Extension(form.photo.value.safeName))];
    }
  }

  // ---------------------------------------------------------------------
  // GET /api/repairs/requests/mine
  // ---------------------------------------------------------------------

  /** `my_requests` as written: `filter_by(user_id=...)` names a column the
      request table does not have, so every logged-in call ends in 500. */
  function MyRequestsStatusAsWritten(users: seq<User>, uid: Option<int>): (code: int)
    ensures code == 401 <==> RequireLogin(users, uid).Refused?
    ensures code != 401 ==> code == 500
  {
    if RequireLogin(users, uid).Refused? then 401 else 500
  }

  /** Any logged-in user asking for their requests gets 500 from the handler
      as written. */
  lemma MyRequestsAsWrittenFails(u: User, others: seq<User>)
    ensures RequireLogin([u] + others, Some(u.id)).Admitted?
    ensures MyRequestsStatusAsWritten([u] + others, Some(u.id)) == 500
  {
    assert ([u] + others)[0].id == u.id;
  }

  /** `r.to_dict()` for a request, against the current users and quotes. */
  function ToDict(users: seq<User>, quotes: seq<Quote>): RepairRequest -> map<string, Json> {
    (r: RepairRequest) => RequestToDict(r, users, quotes)
  }

  /** One `to_dict` entry per row, in order. */
  function RequestDicts(rows: seq<RepairRequest>, users: seq<User>, quotes: seq<Quote>): (ds: seq<map<string, Json>>)
    ensures |ds| == |rows|
    ensures forall i :: 0 <= i < |rows| ==> ds[i] == RequestToDict(rows[i], users, quotes)
  {
    MapSeq(rows, ToDict(users, quotes))
  }

  lemma RequestDictsSnoc(rows: seq<RepairRequest>, i: nat, users: seq<User>, quotes: seq<Quote>)
    requires i < |rows|
    ensures RequestDicts(rows[..i + 1], users, quotes) == RequestDicts(rows[..i], users, quotes) + [RequestToDict(rows[i], users, quotes)]
  {
    MapSeqSnoc(rows, i, ToDict(users, quotes));
  }

  /** The loop of `my_requests`: one `to_dict` entry appended per row. */
  method Dicts(rows: seq<RepairRequest>, users: seq<User>, quotes: seq<Quote>) returns (items: seq<map<string, Json>>)
    ensures items == RequestDicts(rows, users, quotes)
  {
    items := [];
    var i := 0;
    while i < |rows|
      invariant 0 <= i <= |rows|
      invariant items == RequestDicts(rows[..i], users, quotes)
    {
      RequestDictsSnoc(rows, i, users, quotes);
      items := items + [RequestToDict(rows[i], users, quotes)];
      i := i + 1;
    }
    assert rows[..i] == rows;
  }

  /** `my_requests` filtering on `client_id`: 401 from the login gate,
      otherwise 200 and one `to_dict` entry per request of the caller, newest
      first (the order and the selection are those of `MyRequests`). */
  method MyRequestItems(store: Store, session: Session) returns (code: int, items: seq<map<string, Json>>)
    ensures code == 401 <==> RequireLogin(store.users, session.userId).Refused?
    ensures code == 401 ==> items == []
    ensures code != 401 ==>
      var rows := MyRequests(store.requests, session.userId).rows;
      && code == 200 && items == RequestDicts(rows, store.users, store.quotes)
  {
    if RequireLogin(store.users, session.userId).Refused? {
      return 401, [];
    }
    var rows := MyRequests(store.requests, session.userId).rows;
    items := Dicts(rows, store.users, store.quotes);
    code := 200;
  }
}
