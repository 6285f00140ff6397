/**
 * The book endpoints of controllers/bookController.js that change or read one
 * book: `create`, `update`, `remove`, `rate` and `getOne`. The document store is
 * an in-memory map from id to document; the images the controller asks
 * `fs.unlink` to remove are logged in the ghost sequence `released`.
 */
module BookController {
  import opened Common
  import opened Text
  import opened BookSchema
  import opened ImageNames
  import opened Ledger
  import opened Http

  /** An uploaded file as multer hands it over (its bytes are not modelled). */
  datatype Upload = Upload(originalName: string)

  /** The two shapes of a PUT request: a plain JSON body, or a multipart form with a
      new image and a `book` field holding JSON text, parsed (None: the parse threw).
      A multipart form without a file arrives as its fields, unparsed: it is a
      `Json` body such as `map["book" := Str(text)]`, whose key no schema path
      matches. */
  datatype UpdateBody =
    | Json(fields: Payload)
    | Multipart(file: Upload, book: Option<Payload>)

  predicate IsHexDigit(c: char) {
    ('0' <= c <= '9') || ('a' <= c <= 'f') || ('A' <= c <= 'F')
  }

  /** The ids `findById` can cast to an ObjectId: 24 hexadecimal digits, in
      either case. */
  predicate IsObjectId(s: string) {
    |s| == 24 && forall k :: 0 <= k < |s| ==> IsHexDigit(s[k])
  }

  /** The digit the ObjectId cast keeps for `c`: an upper-case letter A-F becomes
      its lower-case letter, every other character stays. */
  function LowerHex(c: char): (r: char)
    ensures IsHexDigit(r) <==> IsHexDigit(c)
    ensures !('A' <= r <= 'F')
    ensures 'a' <= c <= 'f' || '0' <= c <= '9' ==> r == c
  {
    if 'A' <= c <= 'F' then (c as int + 32) as char else c
  }

  /** The ids the database stores: ObjectIds written with lower-case digits. */
  predicate IsStoredId(s: string) {
    IsObjectId(s) && forall k :: 0 <= k < |s| ==> !('A' <= s[k] <= 'F')
  }

  /** The key `findById` looks up for a cleaned id: the ObjectId the id casts
      to, written the way the database stores it. */
  function ObjectIdKey(id: string): (key: string)
    ensures |key| == |id|
    ensures forall k :: 0 <= k < |id| ==> key[k] == LowerHex(id[k])
    ensures IsObjectId(key) <==> IsObjectId(id)
    ensures IsObjectId(id) ==> IsStoredId(key)
  {
    seq(|id|, k requires 0 <= k < |id| => LowerHex(id[k]))
  }

  /** A stored id is its own key: looking it up as stored finds it. */
  lemma StoredIdIsOwnKey(s: string)
    requires IsStoredId(s)
    ensures ObjectIdKey(s) == s
  {
    forall k | 0 <= k < |s| ensures ObjectIdKey(s)[k] == s[k] {
      assert '0' <= s[k] <= '9' || 'a' <= s[k] <= 'f';
    }
  }

  /** Two spellings of an id reach the same record exactly when they agree digit
      by digit once the case of the letters is ignored. */
  lemma SpellingsFindSameRecord(a: string, b: string)
    requires |a| == |b|
    ensures ObjectIdKey(a) == ObjectIdKey(b) <==> forall k :: 0 <= k < |a| ==> LowerHex(a[k]) == LowerHex(b[k])
  {
    if forall k :: 0 <= k < |a| ==> LowerHex(a[k]) == LowerHex(b[k]) {
      assert forall k :: 0 <= k < |a| ==> ObjectIdKey(a)[k] == ObjectIdKey(b)[k];
    }
  }

  /** The upper-case spelling of a stored id finds that record. */
  lemma UpperCaseSpelling()
    ensures ObjectIdKey("ABCDEF0123456789ABCDEF01") == "abcdef0123456789abcdef01"
  {
    var upper, lower := "ABCDEF", "abcdef";
    assert ObjectIdKey(upper) == lower by {
      forall k | 0 <= k < 6 ensures ObjectIdKey(upper)[k] == lower[k] {
        assert lower[k] as int == upper[k] as int + 32;
      }
    }
    assert ObjectIdKey("0123456789") == "0123456789";
    assert ObjectIdKey("01") == "01";
    KeyOfConcat(upper, "0123456789");
    KeyOfConcat(upper + "0123456789", upper);
    KeyOfConcat(upper + "0123456789" + upper, "01");
    UpperIdPieces();
    LowerIdPieces();
  }

  lemma UpperIdPieces()
    ensures "ABCDEF0123456789ABCDEF01" == "ABCDEF" + "0123456789" + "ABCDEF" + "01"
  {
  }

  lemma LowerIdPieces()
    ensures "abcdef0123456789abcdef01" == "abcdef" + "0123456789" + "abcdef" + "01"
  {
  }

  /** The key of a concatenation is the concatenation of the keys. */
  lemma KeyOfConcat(a: string, b: string)
    ensures ObjectIdKey(a + b) == ObjectIdKey(a) + ObjectIdKey(b)
  {
    assert forall k :: 0 <= k < |a + b| ==> ObjectIdKey(a + b)[k] == (ObjectIdKey(a) + ObjectIdKey(b))[k];
  }

  /** The name `saveOptimizedImage` returns: none without a file. */
  function StoredName(file: Option<Upload>, now: nat): (r: Option<string>)
    ensures r.Some? <==> file.Some?
    ensures r.Some? ==> AllSafe(r.value)
  {
    match file
    case None => None
    case Some(u) => Some(ImageFilename(u.originalName, now))
  }

  /** What `deleteImageFromUrl` passes to `fs.unlink`, as a log entry. */
  function Released(url: string): (r: seq<string>)
    ensures |r| <= 1
    ensures r == [] <==> FilenameFromUrl(url).None?
  {
    match FilenameFromUrl(url)
    case None => []
    case Some(f) => [f]
  }

  /** The payload with the three protected keys deleted (lines 114-116). */
  function StripProtected(p: Payload): (r: Payload)
    ensures forall k :: k in r <==> k in p && !IsProtectedPath(k)
    ensures forall k :: k in r ==> r[k] == p[k]
  {
    p - {"userId", "ratings", "averageRating"}
  }

  /** Deleting the three keys one after another, as lines 114-116 do. */
  lemma StripInSteps(p: Payload)
    ensures p - {"userId"} - {"ratings"} - {"averageRating"} == StripProtected(p)
  {
  }

  /** The update data of lines 105-112: the JSON body, or the parsed `book` field with
      the new image's URL. */
  function UpdateData(body: UpdateBody, urlBase: string, now: nat): (r: Option<Payload>)
    ensures body.Json? ==> r == Some(body.fields)
    ensures body.Multipart? ==> (r.Some? <==> body.book.Some?)
    ensures body.Multipart? && r.Some? ==>
              r.value == body.book.value["imageUrl" := Str(BuildImageUrl(urlBase, ImageFilename(body.file.originalName, now)))]
  {
    match body
    case Json(fields) => Some(fields)
    case Multipart(file, book) =>
      match book
      case None => None
      case Some(p) => Some(p["imageUrl" := Str(BuildImageUrl(urlBase, ImageFilename(file.originalName, now)))])
  }

  /** The fields of an operator object that reach neither the owner nor the ledger. */
  function StripFields(fields: Payload): (r: Payload)
    ensures forall f :: f in r <==> f in fields && !TouchesProtected(f)
    ensures forall f :: f in r ==> r[f] == fields[f]
  {
    map f | f in fields && !TouchesProtected(f) :: fields[f]
  }

  /** The stripping an update needs: every key that reaches the owner or the ledger
      is dropped, at the top level and inside every operator object. */
  function SanitizeUpdate(p: Payload): (r: Payload)
    ensures Sanitized(r)
    ensures forall k :: k in r <==> k in p && !TouchesProtected(k)
    ensures forall k :: k in r && !(IsOperatorKey(k) && p[k].Obj?) ==> r[k] == p[k]
    ensures forall k :: k in r && IsOperatorKey(k) && p[k].Obj? ==>
              r[k].Obj? && r[k].fields == StripFields(p[k].fields)
  {
    map k | k in p && !TouchesProtected(k) ::
      if IsOperatorKey(k) && p[k].Obj? then Obj(StripFields(p[k].fields)) else p[k]
  }

  /** A patch that reaches neither the owner nor the ledger loses nothing. */
  lemma SanitizeKeepsSafePatch(p: Payload)
    requires Sanitized(p)
    ensures SanitizeUpdate(p) == p
  {
    forall k | k in p && IsOperatorKey(k) && p[k].Obj?
      ensures StripFields(p[k].fields) == p[k].fields
    {
    }
  }

  /** The update lines 105-118 perform, with only the three top-level deletions. */
  function AsWrittenUpdatedBook(book: Book, data: Payload): (r: Result<Book, SchemaError>)
    ensures r.Ok? && Sanitized(StripProtected(data)) ==>
              r.value.userId == book.userId && r.value.ratings == book.ratings
              && r.value.averageRating == book.averageRating
    ensures r.Ok? && TrimmedFields(book) ==> TrimmedFields(r.value)
  {
    ApplyPatch(book, StripProtected(data))
  }

  /** A `$set` object carries `userId` past the three deletions: the owner changes. */
  lemma SetOperatorChangesOwner(book: Book, intruder: string)
    ensures AsWrittenUpdatedBook(book, map["$set" := Obj(map["userId" := Str(intruder)])])
            == Ok(book.(userId := intruder))
  {
    var fields := map["userId" := Str(intruder)];
    var p := map["$set" := Obj(fields)];
    assert StripProtected(p) == p;
    SetEntriesOfSet(fields);
    SetOnlyPatch(book, p);
    PlainPatch(book, fields);
    PatchCanSetOwner(book, intruder);
  }

  /** A `$push` appends a second rating by a rater already in the ledger. */
  lemma PushOperatorRepeatsRater(book: Book, grade: real)
    requires book.ratings != []
    ensures var entry := Obj(map["userId" := Str(book.ratings[0].userId), "grade" := Num(grade)]);
            var r := AsWrittenUpdatedBook(book, map["$push" := Obj(map["ratings" := entry])]);
            r.Ok? && r.value.ratings == book.ratings + [Rating(book.ratings[0].userId, grade)]
            && !DistinctRaters(r.value.ratings)
  {
    var entry := Obj(map["userId" := Str(book.ratings[0].userId), "grade" := Num(grade)]);
    var fields := map["ratings" := entry];
    var p := map["$push" := Obj(fields)];
    assert StripProtected(p) == p;
    PushOnlyPatch(book, fields);
    assert RatingOf(entry) == Rating(book.ratings[0].userId, grade);
    var rs := book.ratings + [Rating(book.ratings[0].userId, grade)];
    assert rs[0].userId == rs[|rs| - 1].userId;
  }

  /** A dotted path sets the grade of a stored rating past the three deletions,
      leaving `averageRating` as it was. */
  lemma DottedPathChangesGrade(book: Book, grade: real)
    requires |book.ratings| == 1
    ensures AsWrittenUpdatedBook(book, map["ratings.0.grade" := Num(grade)])
            == Ok(book.(ratings := [book.ratings[0].(grade := grade)]))
  {
    var p := map["ratings.0.grade" := Num(grade)];
    assert StripProtected(p) == p;
    assert NatToString(0) == "0";
    assert RatingKey(0) + ".grade" == "ratings.0.grade";
    DottedGradePatch(book, grade);
  }

  /** The update the store applies for an owner's request: the three deletions of
      lines 114-116, then every remaining path into the owner or the ledger dropped. */
  function UpdatedBook(book: Book, data: Payload): (r: Result<Book, SchemaError>)
    ensures r.Ok? ==> r.value.userId == book.userId && r.value.ratings == book.ratings
                      && r.value.averageRating == book.averageRating
    ensures r.Ok? && TrimmedFields(book) ==> TrimmedFields(r.value)
  {
    ApplyPatch(book, SanitizeUpdate(StripProtected(data)))
  }

  /** The `$set` payload that moves the owner as written changes nothing here. */
  lemma SanitizedSetKeepsOwner(book: Book, intruder: string)
    ensures UpdatedBook(book, map["$set" := Obj(map["userId" := Str(intruder)])]) == Ok(book)
  {
    IntruderSetSanitized(intruder);
    var p: Payload := map["$set" := Obj(map[])];
    SetEntriesOfSet(map[]);
    SetOnlyPatch(book, p);
    NoSets(book);
  }

  /** Sanitizing the owner-moving `$set` leaves an empty `$set`. */
  lemma IntruderSetSanitized(intruder: string)
    ensures SanitizeUpdate(StripProtected(map["$set" := Obj(map["userId" := Str(intruder)])]))
            == map["$set" := Obj(map[])]
  {
    var p := SanitizeUpdate(StripProtected(map["$set" := Obj(map["userId" := Str(intruder)])]));
    assert "$set" in p && p["$set"].fields == map[];
  }

  /** An update of plain keys the schema does not know leaves the book as it was;
      the keys into the owner or the ledger are never applied at all. */
  lemma UpdateWithoutKnownKeys(book: Book, data: Payload)
    requires forall k :: k in data ==> !IsOperatorKey(k) && (TouchesProtected(k) || k !in SchemaPaths)
    ensures UpdatedBook(book, data) == Ok(book)
  {
    var p := SanitizeUpdate(StripProtected(data));
    assert forall k :: k in p ==> k in data && !TouchesProtected(k);
    PlainPatch(book, p);
    assert forall k :: k in SchemaPaths ==> k !in p;
  }

  /** What every stored book satisfies. */
  predicate Consistent(b: Book) {
    TrimmedFields(b) && LedgerConsistent(b)
  }

  /** Every key is an ObjectId as the database stores it and every stored book is
      consistent. */
  ghost predicate StoreValid(m: map<string, Book>) {
    forall id :: id in m ==> IsStoredId(id) && Consistent(m[id])
  }

  /** A valid store holds each ObjectId under one spelling only. */
  lemma OneSpellingPerRecord(m: map<string, Book>, a: string, b: string)
    requires StoreValid(m) && a in m && b in m && ObjectIdKey(a) == ObjectIdKey(b)
    ensures a == b
  {
    StoredIdIsOwnKey(a);
    StoredIdIsOwnKey(b);
  }

  lemma StoreValidInsert(m: map<string, Book>, id: string, b: Book)
    requires StoreValid(m) && IsStoredId(id) && Consistent(b)
    ensures StoreValid(m[id := b])
  {
  }

  lemma StoreValidRemove(m: map<string, Book>, id: string)
    requires StoreValid(m)
    ensures StoreValid(m - {id})
  {
  }

  /** The state a request acts on and leaves behind: the reply, the store, and the
      log of names handed to `fs.unlink`. */
  datatype Outcome = Outcome(reply: Reply, books: map<string, Book>, released: seq<string>)

  const Saved := Message("Book saved successfully!")
  const Updated := Message("Book updated successfully!")
  const Deleted := Message("Book deleted successfully!")
  const Unauthorized := Error("Unauthorized")
  const NotFound := Error("Book not found")
  const BadGrade := Error("Rating must be between 0 and 5")
  const AlreadyRated := Error("User already rated this book")

  /* ---------- create ---------- */

  /** The URL `create` stores: the image's URL, ending in `/images/null` without a file. */
  function CreatedUrl(file: Option<Upload>, urlBase: string, now: nat): (url: string)
    ensures file.None? ==> url == urlBase + ImagesDir + "null"
    ensures file.Some? ==> url == urlBase + ImagesDir + ImageFilename(file.value.originalName, now)
  {
    BuildImageUrl(urlBase, TemplateText(StoredName(file, now)))
  }

  /** POST /api/books, from the store `m` and the unlink log `log` before it;
      `url` is the new image's URL (`CreatedUrl`). */
  function CreateOutcome(m: map<string, Book>, log: seq<string>, caller: string, parsed: Option<Payload>,
                         url: string, freshId: string): (o: Outcome)
    ensures o.released == log
    ensures o.reply.status == 201 || (o.reply == Reply(400, LibraryError) && o.books == m)
  {
    match parsed
    case None => Outcome(Reply(400, LibraryError), m, log)
    case Some(data) =>
      match FromPayload(data["userId" := Str(caller)], url)
      case Err(_) => Outcome(Reply(400, LibraryError), m, log)
      case Ok(b) => Outcome(Reply(201, Saved), m[freshId := b], log)
  }

  /** A creation succeeds exactly when the payload parses and validates. */
  lemma CreateSucceedsIff(m: map<string, Book>, log: seq<string>, caller: string, parsed: Option<Payload>,
                          url: string, freshId: string)
    ensures CreateOutcome(m, log, caller, parsed, url, freshId).reply.status == 201
            <==> parsed.Some? && FromPayload(parsed.value["userId" := Str(caller)], url).Ok?
  {
  }

  /** A successful creation adds exactly one record, under the new id. */
  lemma CreateAddsOne(m: map<string, Book>, log: seq<string>, caller: string, parsed: Option<Payload>,
                      url: string, freshId: string)
    ensures var o := CreateOutcome(m, log, caller, parsed, url, freshId);
            o.reply.status == 201 ==> freshId in o.books && o.books == m[freshId := o.books[freshId]]
  {
  }

  /** The new record is owned by the caller, unrated, valid, and points at the new
      image. */
  lemma CreatedBookIsCallers(m: map<string, Book>, log: seq<string>, caller: string, parsed: Option<Payload>,
                             url: string, freshId: string)
    ensures var o := CreateOutcome(m, log, caller, parsed, url, freshId);
            o.reply.status == 201 ==>
              && o.books[freshId].userId == caller
              && o.books[freshId].ratings == [] && o.books[freshId].averageRating == 0.0
              && o.books[freshId].imageUrl == url
              && ValidBook(o.books[freshId])
  {
    if parsed.Some? {
      var built := FromPayload(parsed.value["userId" := Str(caller)], url);
      if built.Ok? {
        assert built.value.userId == caller;
      }
    }
  }

  /** A creation under a well-formed id keeps the store invariant. */
  lemma CreateKeepsStoreValid(m: map<string, Book>, log: seq<string>, caller: string, parsed: Option<Payload>,
                              url: string, freshId: string)
    requires StoreValid(m) && IsStoredId(freshId)
    ensures StoreValid(CreateOutcome(m, log, caller, parsed, url, freshId).books)
  {
    if parsed.Some? {
      var built := FromPayload(parsed.value["userId" := Str(caller)], url);
      if built.Ok? {
        assert Consistent(built.value);
        StoreValidInsert(m, freshId, built.value);
      }
    }
  }

  /* ---------- update ---------- */

  /** The names an owner's update hands to `fs.unlink`: the old image, on a
      multipart request only. */
  function UpdateReleases(body: UpdateBody, oldUrl: string): (r: seq<string>)
    ensures body.Json? ==> r == []
    ensures body.Multipart? ==> r == Released(oldUrl)
  {
    if body.Multipart? then Released(oldUrl) else []
  }

  /** PUT /api/books/:id, from the store `m` and the unlink log `log` before it;
      `id` is the key of the cleaned id (`ObjectIdKey`), `data` the update data
      (`UpdateData`). */
  function UpdateOutcome(m: map<string, Book>, log: seq<string>, caller: string, id: string,
                         body: UpdateBody, data: Option<Payload>): (o: Outcome)
    ensures o.books.Keys == m.Keys
    ensures o.reply.status in {200, 400, 403}
  {
    if !IsObjectId(id) then Outcome(Reply(400, LibraryError), m, log)
    else if id !in m || m[id].userId != caller then Outcome(Reply(403, Unauthorized), m, log)
    else
      var log' := log + UpdateReleases(body, m[id].imageUrl);
      match data
      case None => Outcome(Reply(400, LibraryError), m, log')
      case Some(d) =>
        match UpdatedBook(m[id], d)
        case Err(_) => Outcome(Reply(400, LibraryError), m, log')
        case Ok(nb) => Outcome(Reply(200, Updated), m[id := nb], log')
  }

  /** Only the owner of an existing book gets past the 403. */
  lemma UpdateRefusesNonOwner(m: map<string, Book>, log: seq<string>, caller: string, id: string,
                              body: UpdateBody, data: Option<Payload>)
    ensures UpdateOutcome(m, log, caller, id, body, data).reply.status == 403
            <==> IsObjectId(id) && (id !in m || m[id].userId != caller)
  {
  }

  /** Anyone but the owner changes nothing and releases nothing. */
  lemma UpdateByOthersChangesNothing(m: map<string, Book>, log: seq<string>, caller: string, id: string,
                                     body: UpdateBody, data: Option<Payload>)
    ensures var o := UpdateOutcome(m, log, caller, id, body, data);
            !(IsObjectId(id) && id in m && m[id].userId == caller) ==> o.books == m && o.released == log
  {
  }

  /** An update changes at most the requested record, and on that record never the
      owner, the ratings or the average. */
  lemma UpdateKeepsOwnerAndLedger(m: map<string, Book>, log: seq<string>, caller: string, id: string,
                                  body: UpdateBody, data: Option<Payload>)
    ensures var o := UpdateOutcome(m, log, caller, id, body, data);
            forall k :: k in m ==>
              && o.books[k].userId == m[k].userId
              && o.books[k].ratings == m[k].ratings
              && o.books[k].averageRating == m[k].averageRating
              && (k != id ==> o.books[k] == m[k])
  {
    var o := UpdateOutcome(m, log, caller, id, body, data);
    UpdateApplies(m, log, caller, id, body, data);
    if o.reply.status == 200 {
      ReplaceKeepsOwnerAndLedger(m, id, UpdatedBook(m[id], data.value).value);
    }
  }

  /** Replacing one record by one with the same owner and ledger keeps every
      record's owner and ledger, and every other record. */
  lemma ReplaceKeepsOwnerAndLedger(m: map<string, Book>, id: string, nb: Book)
    requires id in m
    requires nb.userId == m[id].userId && nb.ratings == m[id].ratings
    requires nb.averageRating == m[id].averageRating
    ensures forall k :: k in m ==>
              && m[id := nb][k].userId == m[k].userId
              && m[id := nb][k].ratings == m[k].ratings
              && m[id := nb][k].averageRating == m[k].averageRating
              && (k != id ==> m[id := nb][k] == m[k])
  {
  }

  /** The owner's update is stored exactly when its data parse and pass the
      schema; the stored record is then the updated book. */
  lemma UpdateApplies(m: map<string, Book>, log: seq<string>, caller: string, id: string,
                      body: UpdateBody, data: Option<Payload>)
    ensures var o := UpdateOutcome(m, log, caller, id, body, data);
            o.reply.status == 200
            <==> IsObjectId(id) && id in m && m[id].userId == caller && data.Some?
                 && UpdatedBook(m[id], data.value).Ok?
    ensures var o := UpdateOutcome(m, log, caller, id, body, data);
            o.reply.status == 200 ==>
              && o.reply == Reply(200, Updated)
              && o.books == m[id := UpdatedBook(m[id], data.value).value]
    ensures var o := UpdateOutcome(m, log, caller, id, body, data);
            o.reply.status != 200 ==> o.books == m
  {
  }

  /** An owner's multipart request releases the old image, even when the new
      metadata is then refused; a JSON request releases nothing. */
  lemma UpdateReleasesOldImage(m: map<string, Book>, log: seq<string>, caller: string, id: string,
                               body: UpdateBody, data: Option<Payload>)
    ensures var o := UpdateOutcome(m, log, caller, id, body, data);
            IsObjectId(id) && id in m && m[id].userId == caller ==>
              o.released == log + UpdateReleases(body, m[id].imageUrl)
  {
  }

  /** An update keeps the store invariant. */
  lemma UpdateKeepsStoreValid(m: map<string, Book>, log: seq<string>, caller: string, id: string,
                              body: UpdateBody, data: Option<Payload>)
    requires StoreValid(m)
    ensures StoreValid(UpdateOutcome(m, log, caller, id, body, data).books)
  {
    if IsObjectId(id) && id in m && m[id].userId == caller && data.Some? {
      var patched := UpdatedBook(m[id], data.value);
      if patched.Ok? {
        UpdateKeepsConsistent(m[id], data.value);
        StoreValidInsert(m, id, patched.value);
      }
    }
  }

  /** An applied update keeps a consistent book consistent. */
  lemma UpdateKeepsConsistent(book: Book, data: Payload)
    requires Consistent(book)
    ensures UpdatedBook(book, data).Ok? ==> Consistent(UpdatedBook(book, data).value)
  {
  }

  /* ---------- remove ---------- */

  /** DELETE /api/books/:id, from the store `m` and the unlink log `log` before it;
      `id` is the key of the cleaned id (`ObjectIdKey`). */
  function RemoveOutcome(m: map<string, Book>, log: seq<string>, caller: string, id: string): (o: Outcome)
    ensures o.books == m || o.books == m - {id}
    ensures log <= o.released && |o.released| <= |log| + 1
  {
    if !IsObjectId(id) then Outcome(Reply(400, LibraryError), m, log)
    else if id !in m || m[id].userId != caller then Outcome(Reply(403, Unauthorized), m, log)
    else Outcome(Reply(200, Deleted), m - {id}, log + Released(m[id].imageUrl))
  }

  /** Only the owner of an existing book can delete it: anyone else gets 403 (or 400
      for a malformed id) and changes and releases nothing. */
  lemma RemoveRefusesNonOwner(m: map<string, Book>, log: seq<string>, caller: string, id: string)
    ensures var o := RemoveOutcome(m, log, caller, id);
            && (o.reply.status == 200 <==> IsObjectId(id) && id in m && m[id].userId == caller)
            && (o.reply.status != 200 ==> o.books == m && o.released == log)
            && (IsObjectId(id) && o.reply.status != 200 ==> o.reply == Reply(403, Unauthorized))
  {
  }

  /** The owner's request deletes exactly that record and releases its image. */
  lemma RemoveByOwner(m: map<string, Book>, log: seq<string>, caller: string, id: string)
    ensures var o := RemoveOutcome(m, log, caller, id);
            o.reply.status == 200 ==>
              id in m && id !in o.books && o.books == m - {id} && o.released == log + Released(m[id].imageUrl)
  {
  }

  /** A deletion keeps the store invariant. */
  lemma RemoveKeepsStoreValid(m: map<string, Book>, log: seq<string>, caller: string, id: string)
    requires StoreValid(m)
    ensures StoreValid(RemoveOutcome(m, log, caller, id).books)
  {
    StoreValidRemove(m, id);
  }

  /* ---------- rate ---------- */

  /** POST /api/books/:id/rating, from the store `m` and the unlink log `log` before
      it; `id` is the key of the cleaned id (`ObjectIdKey`). */
  function RateOutcome(m: map<string, Book>, log: seq<string>, caller: string, id: string,
                       rating: JsNumber): (o: Outcome)
    ensures o.released == log
    ensures o.books.Keys == m.Keys
  {
    match AcceptedGrade(rating)
    case None => Outcome(Reply(400, BadGrade), m, log)
    case Some(grade) =>
      if !IsObjectId(id) then Outcome(Reply(500, LibraryError), m, log)
      else if id !in m then Outcome(Reply(404, NotFound), m, log)
      else if HasRated(m[id].ratings, caller) then Outcome(Reply(400, AlreadyRated), m, log)
      else
        var nb := WithRating(m[id], caller, grade);
        if ValidBook(nb) then Outcome(Reply(200, BookJson(nb)), m[id := nb], log)
        else Outcome(Reply(500, LibraryError), m, log)
  }

  /** A bad grade is refused before any lookup, and a rater who already rated is
      refused; neither changes the store. */
  lemma RateRefusals(m: map<string, Book>, log: seq<string>, caller: string, id: string, rating: JsNumber)
    ensures var o := RateOutcome(m, log, caller, id, rating);
            && (AcceptedGrade(rating).None? ==> o.reply == Reply(400, BadGrade) && o.books == m)
            && (AcceptedGrade(rating).Some? && IsObjectId(id) && id !in m ==>
                  o.reply == Reply(404, NotFound) && o.books == m)
            && (AcceptedGrade(rating).Some? && IsObjectId(id) && id in m && HasRated(m[id].ratings, caller) ==>
                  o.reply == Reply(400, AlreadyRated) && o.books == m)
  {
  }

  /** A change to the store comes only from a good grade by a new rater on an
      existing book; it appends exactly that one entry and redoes the average. */
  lemma RateAppendsOne(m: map<string, Book>, log: seq<string>, caller: string, id: string, rating: JsNumber)
    ensures var o := RateOutcome(m, log, caller, id, rating);
            o.books != m ==>
              && AcceptedGrade(rating).Some? && IsObjectId(id) && id in m
              && !HasRated(m[id].ratings, caller)
              && o.books == m[id := WithRating(m[id], caller, rating.value)]
              && o.reply == Reply(200, BookJson(o.books[id]))
  {
  }

  /** A good grade by a new rater on an existing book is stored whenever the
      rated book passes validation, and a 200 reply means exactly that. */
  lemma RateAccepts(m: map<string, Book>, log: seq<string>, caller: string, id: string, rating: JsNumber)
    ensures var o := RateOutcome(m, log, caller, id, rating);
            o.reply.status == 200
            <==> AcceptedGrade(rating).Some? && IsObjectId(id) && id in m
                 && !HasRated(m[id].ratings, caller)
                 && ValidBook(WithRating(m[id], caller, AcceptedGrade(rating).value))
    ensures var o := RateOutcome(m, log, caller, id, rating);
            o.reply.status == 200 ==>
              && o.books == m[id := WithRating(m[id], caller, AcceptedGrade(rating).value)]
              && o.reply == Reply(200, BookJson(o.books[id]))
  {
  }

  /** An id that does not cast makes `findById` throw: `update` and `remove` answer
      400, `rate` (past a good grade) 500, and none of them changes anything. */
  lemma MalformedIdRefused(m: map<string, Book>, log: seq<string>, caller: string, id: string,
                           body: UpdateBody, data: Option<Payload>, rating: JsNumber)
    requires !IsObjectId(id)
    ensures var o := UpdateOutcome(m, log, caller, id, body, data);
            o == Outcome(Reply(400, LibraryError), m, log)
    ensures var o := RemoveOutcome(m, log, caller, id);
            o == Outcome(Reply(400, LibraryError), m, log)
    ensures var o := RateOutcome(m, log, caller, id, rating);
            o == Outcome(if AcceptedGrade(rating).Some? then Reply(500, LibraryError) else Reply(400, BadGrade), m, log)
  {
  }

  /** A rating keeps the store invariant; in particular no rater ever appears twice
      in a stored book. */
  lemma RateKeepsStoreValid(m: map<string, Book>, log: seq<string>, caller: string, id: string,
                            rating: JsNumber)
    requires StoreValid(m)
    ensures StoreValid(RateOutcome(m, log, caller, id, rating).books)
  {
    var g := AcceptedGrade(rating);
    if g.Some? && IsObjectId(id) && id in m && !HasRated(m[id].ratings, caller) {
      var nb := WithRating(m[id], caller, g.value);
      if ValidBook(nb) {
        assert nb.ratings[|nb.ratings| - 1].userId == caller;
        assert Consistent(m[id]);
        WithRatingKeepsConsistent(m[id], caller, g.value);
        StoreValidInsert(m, id, nb);
      }
    }
  }

  class BookStore {
    var books: map<string, Book>
    ghost var released: seq<string>

    ghost predicate Valid()
      reads this
    {
      StoreValid(books)
    }

    constructor ()
      ensures Valid() && books == map[] && released == []
    {
      books := map[];
      released := [];
    }

    /** `deleteImageFromUrl`: records the name handed to `fs.unlink`, if any. */
    method ReleaseImage(url: string)
      modifies this`released
      ensures released == old(released) + Released(url)
    {
      if url == "" {
        return;
      }
      var filename := SecondPiece(url, ImagesDir);
      if filename.None? || filename.value == "" {
        return;
      }
      released := released + [filename.value];
    }

    /** GET /api/books/:id. */
    method GetOne(rawId: string) returns (reply: Reply)
      ensures !IsObjectId(CleanId(rawId)) ==> reply == Reply(400, LibraryError)
      ensures IsObjectId(CleanId(rawId)) && ObjectIdKey(CleanId(rawId)) !in books ==>
                reply == Reply(404, NotFound)
      ensures IsObjectId(CleanId(rawId)) && ObjectIdKey(CleanId(rawId)) in books ==>
                reply == Reply(200, BookJson(books[ObjectIdKey(CleanId(rawId))]))
    {
      var id := ObjectIdKey(CleanId(rawId));
      if !IsObjectId(id) {
        return Reply(400, LibraryError);
      }
      if id !in books {
        return Reply(404, NotFound);
      }
      reply := Reply(200, BookJson(books[id]));
    }

    /** POST /api/books. The store picks `freshId`; `urlBase` is the request's
        protocol and host, `now` the clock reading. */
    method Create(caller: string, parsed: Option<Payload>, file: Option<Upload>,
                  urlBase: string, now: nat, freshId: string) returns (reply: Reply)
      requires Valid()
      requires IsStoredId(freshId) && freshId !in books
      modifies this`books
      ensures Valid()
      ensures Outcome(reply, books, released)
              == CreateOutcome(old(books), old(released), caller, parsed, CreatedUrl(file, urlBase, now), freshId)
    {
      CreateKeepsStoreValid(books, released, caller, parsed, CreatedUrl(file, urlBase, now), freshId);
      if parsed.None? {
        return Reply(400, LibraryError);
      }
      var bookData := parsed.value;
      var filename := StoredName(file, now);
      bookData := bookData["userId" := Str(caller)];
      var built := FromPayload(bookData, BuildImageUrl(urlBase, TemplateText(filename)));
      if built.Err? {
        return Reply(400, LibraryError);
      }
      books := books[freshId := built.value];
      reply := Reply(201, Saved);
    }

    /** Lines 105-112 of the update: a multipart request first releases the old
        image, then yields its parsed `book` field with the new image's URL. */
    method PrepareUpdate(oldUrl: string, body: UpdateBody, urlBase: string, now: nat)
      returns (data: Option<Payload>)
      modifies this`released
      ensures data == UpdateData(body, urlBase, now)
      ensures released == old(released) + UpdateReleases(body, oldUrl)
    {
      match body {
        case Json(fields) =>
          data := Some(fields);
        case Multipart(file, parsed) =>
          ReleaseImage(oldUrl);
          var filename := ImageFilename(file.originalName, now);
          if parsed.None? {
            return None;
          }
          var updatedData := parsed.value;
          updatedData := updatedData["imageUrl" := Str(BuildImageUrl(urlBase, filename))];
          data := Some(updatedData);
      }
    }

    /** PUT /api/books/:id. */
    method Update(caller: string, rawId: string, body: UpdateBody, urlBase: string, now: nat)
      returns (reply: Reply)
      requires Valid()
      modifies this
      ensures Valid()
      ensures Outcome(reply, books, released)
              == UpdateOutcome(old(books), old(released), caller, ObjectIdKey(CleanId(rawId)), body,
                               UpdateData(body, urlBase, now))
    {
      UpdateKeepsStoreValid(books, released, caller, ObjectIdKey(CleanId(rawId)), body, UpdateData(body, urlBase, now));
      var id := ObjectIdKey(CleanId(rawId));
      if !IsObjectId(id) {
        return Reply(400, LibraryError);
      }
      if id !in books || books[id].userId != caller {
        return Reply(403, Unauthorized);
      }
      var book := books[id];
      var prepared := PrepareUpdate(book.imageUrl, body, urlBase, now);
      if prepared.None? {
        return Reply(400, LibraryError);
      }
      var updatedData := prepared.value;
      ghost var data := updatedData;
      updatedData := updatedData - {"userId"};
      updatedData := updatedData - {"ratings"};
      updatedData := updatedData - {"averageRating"};
      StripInSteps(data);
      updatedData := SanitizeUpdate(updatedData);
      var patched := ApplyPatch(book, updatedData);
      if patched.Err? {
        return Reply(400, LibraryError);
      }
      books := books[id := patched.value];
      reply := Reply(200, Updated);
    }

    /** DELETE /api/books/:id. */
    method Remove(caller: string, rawId: string) returns (reply: Reply)
      requires Valid()
      modifies this
      ensures Valid()
      ensures Outcome(reply, books, released)
              == RemoveOutcome(old(books), old(released), caller, ObjectIdKey(CleanId(rawId)))
    {
      RemoveKeepsStoreValid(books, released, caller, ObjectIdKey(CleanId(rawId)));
      var id := ObjectIdKey(CleanId(rawId));
      if !IsObjectId(id) {
        return Reply(400, LibraryError);
      }
      if id !in books || books[id].userId != caller {
        return Reply(403, Unauthorized);
      }
      ReleaseImage(books[id].imageUrl);
      books := books - {id};
      reply := Reply(200, Deleted);
    }

    /** POST /api/books/:id/rating. */
    method Rate(caller: string, rawId: string, rating: JsNumber) returns (reply: Reply)
      requires Valid()
      modifies this`books
      ensures Valid()
      ensures Outcome(reply, books, released)
              == RateOutcome(old(books), old(released), caller, ObjectIdKey(CleanId(rawId)), rating)
    {
      RateKeepsStoreValid(books, released, caller, ObjectIdKey(CleanId(rawId)), rating);
      var bookId := ObjectIdKey(CleanId(rawId));
      var userId := caller;
      var grade := rating;
      if grade.NaN? || LessThan(grade, MinGrade) || GreaterThan(grade, MaxGrade) {
        return Reply(400, BadGrade);
      }
      if !IsObjectId(bookId) {
        return Reply(500, LibraryError);
      }
      if bookId !in books {
        return Reply(404, NotFound);
      }
      var book := books[bookId];
      if HasRated(book.ratings, userId) {
        return Reply(400, AlreadyRated);
      }
      var ratings := book.ratings;
      ratings := ratings + [Rating(userId, grade.value)];
      book := book.(ratings := ratings);
      book := book.(averageRating := AverageOf(book.ratings));
      assert book == WithRating(books[bookId], userId, grade.value);
      if !ValidBook(book) {
        return Reply(500, LibraryError);
      }
      books := books[bookId := book];
      reply := Reply(200, BookJson(book));
    }
  }

  /** A rating a valid book accepts passes the validation of `save()`, provided the
      caller is a non-empty id. */
  lemma RatingKeepsValid(b: Book, userId: string, grade: real)
    requires ValidBook(b) && userId != "" && MinGrade <= grade <= MaxGrade
    ensures ValidBook(WithRating(b, userId, grade))
  {
    var nb := WithRating(b, userId, grade);
    forall i | 0 <= i < |nb.ratings| ensures ValidRating(nb.ratings[i]) {
      if i < |b.ratings| {
        assert nb.ratings[i] == b.ratings[i];
      }
    }
  }

  /** The owner of a created book is the caller, whatever the client sent as
      `userId`, `ratings` or `averageRating`. */
  lemma CreateIgnoresProtectedKeys(data: Payload, caller: string, url: string)
    ensures FromPayload(data["userId" := Str(caller)], url)
            == FromPayload(StripProtected(data)["userId" := Str(caller)], url)
    ensures FromPayload(data["userId" := Str(caller)], url).Ok? ==>
              FromPayload(data["userId" := Str(caller)], url).value.userId == caller
  {
    FromPayloadReadsOnlyMetadata(data["userId" := Str(caller)], StripProtected(data)["userId" := Str(caller)], url);
  }
}
