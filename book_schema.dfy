/**
 * The Book document of models/Book.js: a rating sub-document `{userId, grade}`
 * and a book with six required paths, three of them trimmed, a `ratings` list
 * defaulting to [] and an `averageRating` defaulting to 0.
 *
 * Two things the document layer does to client data are modelled here:
 * building a new document and validating it (what `new Book(...)` followed by
 * `save()` does), and applying an update to a stored document (what `updateOne`
 * does: it casts and runs setters such as `trim`, but runs no validators).
 */
module BookSchema {
  import opened Common
  import opened Text

  datatype Rating = Rating(userId: string, grade: real)

  datatype Book = Book(
    userId: string,
    title: string,
    author: string,
    imageUrl: string,
    year: real,
    genre: string,
    ratings: seq<Rating>,
    averageRating: real)

  /** A parsed JSON value as it reaches the controller. */
  datatype Value =
    | Str(s: string)
    | Num(n: real)
    | Arr(items: seq<Value>)
    | Obj(fields: map<string, Value>)
    | Other   // true, false, null

  /** A parsed JSON object: a request body or the `book` field of a multipart form. */
  type Payload = map<string, Value>

  datatype SchemaError = CastError(path: string) | RequiredError(path: string)

  const DefaultRatings: seq<Rating> := []
  const DefaultAverage: real := 0.0

  const MinGrade: real := 0.0
  const MaxGrade: real := 5.0

  /** The rating sub-document's validators: a required string rater, a required
      number grade between 0 and 5. */
  predicate ValidRating(r: Rating) {
    r.userId != "" && MinGrade <= r.grade <= MaxGrade
  }

  /** What validation on `save()` accepts: every required string path non-empty
      (a required string validator refuses ""), every rating valid. The schema does
      NOT ask for distinct raters. */
  predicate ValidBook(b: Book) {
    && b.userId != ""
    && b.title != ""
    && b.author != ""
    && b.imageUrl != ""
    && b.genre != ""
    && forall i :: 0 <= i < |b.ratings| ==> ValidRating(b.ratings[i])
  }

  /** The three paths with the `trim` setter hold no surrounding whitespace. */
  predicate TrimmedFields(b: Book) {
    IsTrimmed(b.title) && IsTrimmed(b.author) && IsTrimmed(b.genre)
  }

  /** The paths the `trim` setter applies to. */
  predicate IsTrimmedPath(key: string) {
    key == "title" || key == "author" || key == "genre"
  }

  /** Casting a value to a String path, then the path's setter. */
  function CastString(key: string, v: Value): (r: Result<string, SchemaError>)
    ensures r.Ok? <==> v.Str?
    ensures r.Ok? && IsTrimmedPath(key) ==> r.value == Trim(v.s)
    ensures r.Ok? && !IsTrimmedPath(key) ==> r.value == v.s
  {
    match v
    case Str(s) => Ok(if IsTrimmedPath(key) then Trim(s) else s)
    case _ => Err(CastError(key))
  }

  /** A required String path of a new document: present, a string, and non-empty
      after its setter. */
  function RequiredString(data: Payload, key: string): (r: Result<string, SchemaError>)
    ensures r.Ok? <==> key in data && data[key].Str? && CastString(key, data[key]).value != ""
    ensures r.Ok? ==> r.value != "" && r.value == CastString(key, data[key]).value
    ensures r.Ok? && IsTrimmedPath(key) ==> IsTrimmed(r.value)
  {
    if key !in data then Err(RequiredError(key))
    else match CastString(key, data[key])
      case Err(e) => Err(e)
      case Ok(s) => if s == "" then Err(RequiredError(key)) else Ok(s)
  }

  /** A required Number path of a new document. */
  function RequiredNumber(data: Payload, key: string): (r: Result<real, SchemaError>)
    ensures r.Ok? <==> key in data && data[key].Num?
    ensures r.Ok? ==> r.value == data[key].n
  {
    if key !in data then Err(RequiredError(key))
    else match data[key]
      case Num(n) => Ok(n)
      case _ => Err(CastError(key))
  }

  /** Everything a new document needs from the client's data. */
  predicate Complete(data: Payload) {
    && RequiredString(data, "userId").Ok?
    && RequiredString(data, "title").Ok?
    && RequiredString(data, "author").Ok?
    && RequiredNumber(data, "year").Ok?
    && RequiredString(data, "genre").Ok?
  }

  /** `new Book({...data, imageUrl, ratings: [], averageRating: 0})` followed by the
      validation of `save()`. The keys `imageUrl`, `ratings` and `averageRating` of
      `data` are overridden and keys outside the schema are dropped. */
  function FromPayload(data: Payload, imageUrl: string): (r: Result<Book, SchemaError>)
    ensures r.Ok? <==> Complete(data) && imageUrl != ""
    ensures r.Ok? ==> ValidBook(r.value) && TrimmedFields(r.value)
    ensures r.Ok? ==> r.value.ratings == DefaultRatings && r.value.averageRating == DefaultAverage
    ensures r.Ok? ==> r.value.imageUrl == imageUrl && Str(r.value.userId) == data["userId"]
    ensures r.Ok? ==> r.value.title == Trim(data["title"].s) && r.value.author == Trim(data["author"].s)
                      && r.value.genre == Trim(data["genre"].s) && Num(r.value.year) == data["year"]
  {
    if !Complete(data) then
      if RequiredString(data, "userId").Err? then Err(RequiredString(data, "userId").error)
      else if RequiredString(data, "title").Err? then Err(RequiredString(data, "title").error)
      else if RequiredString(data, "author").Err? then Err(RequiredString(data, "author").error)
      else if RequiredNumber(data, "year").Err? then Err(RequiredNumber(data, "year").error)
      else Err(RequiredString(data, "genre").error)
    else if imageUrl == "" then Err(RequiredError("imageUrl"))
    else
      Ok(Book(RequiredString(data, "userId").value,
              RequiredString(data, "title").value,
              RequiredString(data, "author").value,
              imageUrl,
              RequiredNumber(data, "year").value,
              RequiredString(data, "genre").value,
              DefaultRatings,
              DefaultAverage))
  }

  /** Only the five paths the client supplies are read from the data. */
  lemma FromPayloadReadsOnlyMetadata(data: Payload, other: Payload, imageUrl: string)
    requires forall k :: k in {"userId", "title", "author", "year", "genre"} ==>
               (k in data <==> k in other) && (k in data ==> data[k] == other[k])
    ensures FromPayload(data, imageUrl) == FromPayload(other, imageUrl)
  {
    assert RequiredString(data, "userId") == RequiredString(other, "userId");
    assert RequiredString(data, "title") == RequiredString(other, "title");
    assert RequiredString(data, "author") == RequiredString(other, "author");
    assert RequiredNumber(data, "year") == RequiredNumber(other, "year");
    assert RequiredString(data, "genre") == RequiredString(other, "genre");
  }

  /* ---------- updateOne: casts and setters, no validators ---------- */

  /** An array element that casts to a rating sub-document. */
  predicate IsRatingValue(v: Value) {
    v.Obj? && "userId" in v.fields && v.fields["userId"].Str? && "grade" in v.fields && v.fields["grade"].Num?
  }

  /** The rating such an element casts to. */
  function RatingOf(v: Value): Rating
    requires IsRatingValue(v)
  {
    Rating(v.fields["userId"].s, v.fields["grade"].n)
  }

  /** Casting an array value to the `ratings` path: every element an object with a
      string `userId` and a number `grade`. No range check runs here. */
  function CastRatings(items: seq<Value>): (r: Result<seq<Rating>, SchemaError>)
    ensures r.Ok? <==> forall i :: 0 <= i < |items| ==> IsRatingValue(items[i])
    ensures r.Ok? ==> |r.value| == |items| && forall i :: 0 <= i < |items| ==> r.value[i] == RatingOf(items[i])
    ensures r.Err? ==> r.error == CastError("ratings")
  {
    if items == [] then Ok([])
    else match items[0]
      case Obj(f) =>
        if "userId" in f && f["userId"].Str? && "grade" in f && f["grade"].Num? then
          match CastRatings(items[1..])
          case Err(e) => Err(e)
          case Ok(rest) => Ok([Rating(f["userId"].s, f["grade"].n)] + rest)
        else Err(CastError("ratings"))
      case _ => Err(CastError("ratings"))
  }

  /** The paths `updateOne` may set; every other key is dropped in strict mode. */
  const SchemaPaths: seq<string> :=
    ["userId", "title", "author", "imageUrl", "year", "genre", "ratings", "averageRating"]

  /** The paths `averageRating`, `ratings` and `userId` hold the ledger and the owner. */
  predicate IsProtectedPath(key: string) {
    key == "userId" || key == "ratings" || key == "averageRating"
  }

  /** Sets one path of a stored document from a client value. */
  function SetPath(b: Book, key: string, v: Value): (r: Result<Book, SchemaError>)
    ensures r.Ok? && !IsProtectedPath(key) ==>
              r.value.userId == b.userId && r.value.ratings == b.ratings
              && r.value.averageRating == b.averageRating
    ensures r.Ok? && TrimmedFields(b) ==> TrimmedFields(r.value)
  {
    if key == "userId" then
      (match CastString(key, v) case Ok(s) => Ok(b.(userId := s)) case Err(e) => Err(e))
    else if key == "title" then
      (match CastString(key, v) case Ok(s) => Ok(b.(title := s)) case Err(e) => Err(e))
    else if key == "author" then
      (match CastString(key, v) case Ok(s) => Ok(b.(author := s)) case Err(e) => Err(e))
    else if key == "imageUrl" then
      (match CastString(key, v) case Ok(s) => Ok(b.(imageUrl := s)) case Err(e) => Err(e))
    else if key == "genre" then
      (match CastString(key, v) case Ok(s) => Ok(b.(genre := s)) case Err(e) => Err(e))
    else if key == "year" then
      (match v case Num(n) => Ok(b.(year := n)) case _ => Err(CastError(key)))
    else if key == "averageRating" then
      (match v case Num(n) => Ok(b.(averageRating := n)) case _ => Err(CastError(key)))
    else if key == "ratings" then
      (match v
       case Arr(items) =>
         (match CastRatings(items) case Ok(rs) => Ok(b.(ratings := rs)) case Err(e) => Err(e))
       case _ => Err(CastError(key)))
    else Ok(b)
  }

  /** Applies the present keys among `keys`, in order; the first cast error aborts. */
  function ApplyKeys(b: Book, patch: Payload, keys: seq<string>): (r: Result<Book, SchemaError>)
    ensures r.Ok? && (forall k :: k in keys && k in patch ==> !IsProtectedPath(k)) ==>
              r.value.userId == b.userId && r.value.ratings == b.ratings
              && r.value.averageRating == b.averageRating
    ensures r.Ok? && TrimmedFields(b) ==> TrimmedFields(r.value)
    ensures (forall k :: k in keys ==> k !in patch) ==> r == Ok(b)
    decreases |keys|
  {
    if keys == [] then Ok(b)
    else if keys[0] !in patch then ApplyKeys(b, patch, keys[1..])
    else match SetPath(b, keys[0], patch[keys[0]])
      case Err(e) => Err(e)
      case Ok(b') => ApplyKeys(b', patch, keys[1..])
  }

  /* ---------- the update syntax `updateOne` accepts ---------- */

  /** A top-level key naming an update operator such as `$set`, `$push` or `$inc`. */
  predicate IsOperatorKey(key: string) {
    |key| > 0 && key[0] == '$'
  }

  predicate HasPrefix(s: string, p: string) {
    |p| <= |s| && s[..|p|] == p
  }

  /** A path that reaches the owner or the ledger: a protected path itself, or a
      dotted path below one, such as `ratings.0.grade`. */
  predicate TouchesProtected(key: string) {
    || IsProtectedPath(key)
    || HasPrefix(key, "userId.") || HasPrefix(key, "ratings.") || HasPrefix(key, "averageRating.")
  }

  /** The object an operator key holds, or nothing. */
  function OperatorFields(patch: Payload, op: string): (r: Payload)
    ensures op in patch && patch[op].Obj? ==> r == patch[op].fields
    ensures !(op in patch && patch[op].Obj?) ==> r == map[]
  {
    if op in patch && patch[op].Obj? then patch[op].fields else map[]
  }

  /** The paths `$set` receives: the `$set` object with every plain top-level key
      moved into it; a plain key wins over the same key inside `$set`. */
  function SetEntries(patch: Payload): (r: Payload)
    ensures forall k :: k in r <==> k in OperatorFields(patch, "$set") || (k in patch && !IsOperatorKey(k))
    ensures forall k :: k in patch && !IsOperatorKey(k) ==> r[k] == patch[k]
    ensures forall k :: k in r && !(k in patch && !IsOperatorKey(k)) ==> r[k] == OperatorFields(patch, "$set")[k]
  {
    OperatorFields(patch, "$set") + map k | k in patch && !IsOperatorKey(k) :: patch[k]
  }

  /** No key of the patch, nor of any operator object in it, reaches the owner or
      the ledger. */
  predicate Sanitized(patch: Payload) {
    forall k :: k in patch ==>
      && !TouchesProtected(k)
      && (IsOperatorKey(k) && patch[k].Obj? ==> forall f :: f in patch[k].fields ==> !TouchesProtected(f))
  }

  /** The key of a stored entry of the ledger, `ratings.<i>`. */
  function RatingKey(i: nat): (key: string)
    ensures HasPrefix(key, "ratings.") && HasPrefix(key + ".userId", "ratings.")
            && HasPrefix(key + ".grade", "ratings.")
  {
    var key := "ratings." + NatToString(i);
    assert (key + ".userId")[..8] == key[..8];
    assert (key + ".grade")[..8] == key[..8];
    key
  }

  /** `$set` of `ratings.<i>`, `ratings.<i>.userId` and `ratings.<i>.grade` on one
      entry, in that order. */
  function SetRatingEntry(r: Rating, sets: Payload, key: string): (res: Result<Rating, SchemaError>)
    ensures key !in sets && key + ".userId" !in sets && key + ".grade" !in sets ==> res == Ok(r)
  {
    var whole :=
      if key !in sets then Ok(r)
      else if IsRatingValue(sets[key]) then Ok(RatingOf(sets[key]))
      else Err(CastError("ratings"));
    match whole
    case Err(e) => Err(e)
    case Ok(r1) =>
      var withUser :=
        if key + ".userId" !in sets then Ok(r1)
        else (match sets[key + ".userId"] case Str(u) => Ok(r1.(userId := u)) case _ => Err(CastError("ratings")));
      match withUser
      case Err(e) => Err(e)
      case Ok(r2) =>
        if key + ".grade" !in sets then Ok(r2)
        else (match sets[key + ".grade"] case Num(g) => Ok(r2.(grade := g)) case _ => Err(CastError("ratings")))
  }

  /** The dotted ledger paths among the `$set` paths, for the stored entries from
      `i` on. */
  function SetRatingPaths(rs: seq<Rating>, sets: Payload, i: nat): (r: Result<seq<Rating>, SchemaError>)
    requires i <= |rs|
    ensures r.Ok? ==> |r.value| == |rs|
    ensures (forall k :: k in sets ==> !HasPrefix(k, "ratings.")) ==> r == Ok(rs)
    decreases |rs| - i
  {
    if i == |rs| then Ok(rs)
    else match SetRatingEntry(rs[i], sets, RatingKey(i))
      case Err(e) => Err(e)
      case Ok(r') =>
        assert r' == rs[i] ==> rs[i := r'] == rs;
        SetRatingPaths(rs[i := r'], sets, i + 1)
  }

  /** `$push` of one entry onto `ratings`. */
  function PushRating(b: Book, push: Payload): (r: Result<Book, SchemaError>)
    ensures "ratings" !in push ==> r == Ok(b)
    ensures r.Ok? ==> r.value == b.(ratings := r.value.ratings)
    ensures r.Ok? && "ratings" in push ==>
              IsRatingValue(push["ratings"]) && r.value.ratings == b.ratings + [RatingOf(push["ratings"])]
  {
    if "ratings" !in push then Ok(b)
    else if IsRatingValue(push["ratings"]) then Ok(b.(ratings := b.ratings + [RatingOf(push["ratings"])]))
    else Err(CastError("ratings"))
  }

  /** `$inc` of the two Number paths. */
  function IncNumbers(b: Book, inc: Payload): (r: Result<Book, SchemaError>)
    ensures r.Ok? ==> r.value == b.(year := r.value.year, averageRating := r.value.averageRating)
    ensures r.Ok? && "averageRating" !in inc ==> r.value.averageRating == b.averageRating
    ensures r.Ok? && "averageRating" in inc ==>
              inc["averageRating"].Num? && r.value.averageRating == b.averageRating + inc["averageRating"].n
    ensures r.Ok? && "year" !in inc ==> r.value.year == b.year
    ensures r.Ok? && "year" in inc ==> inc["year"].Num? && r.value.year == b.year + inc["year"].n
    ensures "year" !in inc && "averageRating" !in inc ==> r == Ok(b)
  {
    var year :=
      if "year" !in inc then Ok(b.year)
      else (match inc["year"] case Num(n) => Ok(b.year + n) case _ => Err(CastError("year")));
    var average :=
      if "averageRating" !in inc then Ok(b.averageRating)
      else (match inc["averageRating"] case Num(n) => Ok(b.averageRating + n) case _ => Err(CastError("averageRating")));
    if year.Err? then Err(year.error)
    else if average.Err? then Err(average.error)
    else Ok(b.(year := year.value, averageRating := average.value))
  }

  /** In an update that touches no protected path, no stage receives a path into the
      owner or the ledger. */
  lemma SanitizedStages(patch: Payload)
    ensures Sanitized(patch) ==> forall k :: k in SetEntries(patch) ==> !TouchesProtected(k)
    ensures Sanitized(patch) ==> "ratings" !in OperatorFields(patch, "$push")
    ensures Sanitized(patch) ==> "averageRating" !in OperatorFields(patch, "$inc")
  {
    if Sanitized(patch) {
      forall k | k in SetEntries(patch)
        ensures !TouchesProtected(k)
      {
        if !(k in patch && !IsOperatorKey(k)) {
          assert "$set" in patch && IsOperatorKey("$set");
        }
      }
      if "$push" in patch && patch["$push"].Obj? {
        assert IsOperatorKey("$push");
      }
      if "$inc" in patch && patch["$inc"].Obj? {
        assert IsOperatorKey("$inc");
      }
    }
  }

  /** The `$set` stage: schema paths first, then dotted ledger paths. */
  function ApplySets(b: Book, sets: Payload): (r: Result<Book, SchemaError>)
    ensures r.Ok? && (forall k :: k in sets ==> !TouchesProtected(k)) ==>
              r.value.userId == b.userId && r.value.ratings == b.ratings
              && r.value.averageRating == b.averageRating
    ensures r.Ok? && TrimmedFields(b) ==> TrimmedFields(r.value)
    ensures (forall k :: k in sets ==> !HasPrefix(k, "ratings.")) ==> r == ApplyKeys(b, sets, SchemaPaths)
  {
    match ApplyKeys(b, sets, SchemaPaths)
    case Err(e) => Err(e)
    case Ok(b1) =>
      match SetRatingPaths(b1.ratings, sets, 0)
      case Err(e) => Err(e)
      case Ok(rs) => Ok(b1.(ratings := rs))
  }

  /** The `$push` stage, then the `$inc` stage. */
  function ApplyOperators(b: Book, push: Payload, inc: Payload): (r: Result<Book, SchemaError>)
    ensures r.Ok? ==> r.value.userId == b.userId
    ensures r.Ok? && "ratings" !in push && "averageRating" !in inc ==>
              r.value.ratings == b.ratings && r.value.averageRating == b.averageRating
    ensures r.Ok? && TrimmedFields(b) ==> TrimmedFields(r.value)
    ensures push == map[] && inc == map[] ==> r == Ok(b)
  {
    match PushRating(b, push)
    case Err(e) => Err(e)
    case Ok(b1) => IncNumbers(b1, inc)
  }

  /** The update operators the database knows. */
  const UpdateOperators: set<string> :=
    {"$currentDate", "$inc", "$min", "$max", "$mul", "$rename", "$set", "$setOnInsert",
     "$unset", "$addToSet", "$pop", "$pull", "$push", "$pullAll", "$bit"}

  /** A path that survives Mongoose's strict cast: one of the schema's own paths or
      a dotted path below `ratings.`. */
  predicate IsCastPath(key: string) {
    key in SchemaPaths || HasPrefix(key, "ratings.")
  }

  /** A `$` key whose value is not an object (Mongoose's cast throws), or that names
      no update operator yet keeps a cast path after strict mode (the database
      refuses it). An unknown operator left empty by the cast is dropped. */
  predicate MalformedOperator(patch: Payload) {
    exists k :: k in patch && IsOperatorKey(k) &&
      (!patch[k].Obj? || (k !in UpdateOperators && exists f :: f in patch[k].fields && IsCastPath(f)))
  }

  /** Two stages name the same cast path. */
  predicate Conflicting(a: Payload, b: Payload) {
    exists k :: k in a && k in b && IsCastPath(k)
  }

  /** A cast path named by two of the `$set`, `$push` and `$inc` stages: the database
      refuses the update as one that would create a conflict. */
  predicate StagesConflict(patch: Payload) {
    var sets, push, inc := SetEntries(patch), OperatorFields(patch, "$push"), OperatorFields(patch, "$inc");
    Conflicting(sets, push) || Conflicting(sets, inc) || Conflicting(push, inc)
  }

  /** `updateOne(filter, patch)` on one stored document: plain keys and `$set` keys
      (schema paths and dotted ledger paths), then `$push` onto `ratings`, then `$inc`.
      A malformed operator or a path named by two stages is refused. */
  function ApplyPatch(b: Book, patch: Payload): (r: Result<Book, SchemaError>)
    ensures r.Ok? && Sanitized(patch) ==>
              r.value.userId == b.userId && r.value.ratings == b.ratings
              && r.value.averageRating == b.averageRating
    ensures r.Ok? && TrimmedFields(b) ==> TrimmedFields(r.value)
    ensures MalformedOperator(patch) ==> r.Err?
    ensures StagesConflict(patch) ==> r.Err?
  {
    SanitizedStages(patch);
    if MalformedOperator(patch) || StagesConflict(patch) then Err(CastError("update"))
    else match ApplySets(b, SetEntries(patch))
      case Err(e) => Err(e)
      case Ok(b1) => ApplyOperators(b1, OperatorFields(patch, "$push"), OperatorFields(patch, "$inc"))
  }

  /** An update naming an operator the database does not know, on a schema path,
      is refused. */
  lemma UnknownOperatorRefused(b: Book)
    ensures ApplyPatch(b, map["$frobnicate" := Obj(map["title" := Str("x")])]).Err?
  {
    UnknownOperatorIsMalformed(map["title" := Str("x")]);
  }

  /** `$frobnicate` names no operator, so holding a cast path makes it malformed. */
  lemma UnknownOperatorIsMalformed(fields: Payload)
    requires "title" in fields
    ensures MalformedOperator(map["$frobnicate" := Obj(fields)])
  {
    var p := map["$frobnicate" := Obj(fields)];
    assert forall op :: op in UpdateOperators ==> |op| != 11;
    assert IsCastPath("title");
    assert "$frobnicate" in p && IsOperatorKey("$frobnicate") && "$frobnicate" !in UpdateOperators;
  }

  /** An unknown operator the cast leaves empty is dropped: the update does nothing. */
  lemma EmptyUnknownOperatorDropped(b: Book)
    ensures ApplyPatch(b, map["$frobnicate" := Obj(map[])]) == Ok(b)
  {
    var p: Payload := map["$frobnicate" := Obj(map[])];
    assert !MalformedOperator(p);
    assert OperatorFields(p, "$push") == map[] && OperatorFields(p, "$inc") == map[];
    assert SetEntries(p) == map[];
    SetOnlyPatch(b, p);
    NoSets(b);
  }

  /** Setting and incrementing `year` in one update is refused as a conflict. */
  lemma ConflictingStagesRefused(b: Book)
    ensures ApplyPatch(b, map["$set" := Obj(map["year" := Num(1.0)]), "$inc" := Obj(map["year" := Num(1.0)])]).Err?
  {
    var p: Payload := map["$set" := Obj(map["year" := Num(1.0)]), "$inc" := Obj(map["year" := Num(1.0)])];
    assert "year" in OperatorFields(p, "$inc");
    assert "year" in SetEntries(p);
    assert IsCastPath("year");
    assert StagesConflict(p);
  }

  /** An operator holding something other than an object is refused. */
  lemma NonObjectOperatorRefused(b: Book)
    ensures ApplyPatch(b, map["$unset" := Num(1.0)]).Err?
  {
    assert IsOperatorKey("$unset");
  }

  /** A patch without `$push` and `$inc` is its `$set` stage. */
  lemma SetOnlyPatch(b: Book, patch: Payload)
    requires !MalformedOperator(patch)
    requires OperatorFields(patch, "$push") == map[] && OperatorFields(patch, "$inc") == map[]
    ensures ApplyPatch(b, patch) == ApplySets(b, SetEntries(patch))
  {
  }

  /** The `$set` stage with no paths changes nothing. */
  lemma NoSets(b: Book)
    ensures ApplySets(b, map[]) == Ok(b)
  {
  }

  /** A patch holding only a `$push` object has no `$set` paths and no `$inc`. */
  lemma PushOnlyParts(fields: Payload)
    ensures var patch := map["$push" := Obj(fields)];
            && SetEntries(patch) == map[] && !MalformedOperator(patch)
            && OperatorFields(patch, "$push") == fields && OperatorFields(patch, "$inc") == map[]
  {
    assert IsOperatorKey("$push");
  }

  /** A patch holding only a `$push` object is its `$push` stage. */
  lemma PushOnlyPatch(b: Book, fields: Payload)
    ensures ApplyPatch(b, map["$push" := Obj(fields)]) == PushRating(b, fields)
  {
    PushOnlyParts(fields);
    NoSets(b);
  }

  /** The paths of a patch holding only a `$set` object are that object's keys. */
  lemma SetEntriesOfSet(fields: Payload)
    ensures !MalformedOperator(map["$set" := Obj(fields)])
    ensures SetEntries(map["$set" := Obj(fields)]) == fields
    ensures OperatorFields(map["$set" := Obj(fields)], "$push") == map[]
    ensures OperatorFields(map["$set" := Obj(fields)], "$inc") == map[]
  {
  }

  /** A dotted ledger path is none of the schema's own paths. */
  lemma DottedIsNoSchemaPath(key: string)
    requires HasPrefix(key, "ratings.")
    ensures key !in SchemaPaths
  {
    assert key[0] == key[..8][0] == 'r' && |key| >= 8;
    assert forall i :: 0 <= i < |SchemaPaths| ==> |SchemaPaths[i]| < 8 || SchemaPaths[i][0] != 'r';
  }

  /** `$set` of `<key>.grade` alone replaces the grade of that entry. */
  lemma GradeEntry(r: Rating, key: string, grade: real)
    ensures SetRatingEntry(r, map[key + ".grade" := Num(grade)], key) == Ok(r.(grade := grade))
  {
    assert |key + ".userId"| != |key + ".grade"| && |key| != |key + ".grade"|;
  }

  /** The dotted ledger paths on a ledger of one entry. */
  lemma RatingPathsOfOne(r: Rating, sets: Payload)
    ensures SetRatingEntry(r, sets, RatingKey(0)).Ok? ==>
              SetRatingPaths([r], sets, 0) == Ok([SetRatingEntry(r, sets, RatingKey(0)).value])
  {
    var e := SetRatingEntry(r, sets, RatingKey(0));
    if e.Ok? {
      assert [r][0 := e.value] == [e.value];
      assert SetRatingPaths([e.value], sets, 1) == Ok([e.value]);
    }
  }

  /** A dotted ledger path is no operator key. */
  lemma DottedIsNoOperator(key: string)
    requires HasPrefix(key, "ratings.")
    ensures !IsOperatorKey(key)
  {
    assert key[0] == key[..8][0];
  }

  /** A patch without operator keys is all `$set` paths. */
  lemma PlainSetEntries(patch: Payload)
    requires forall k :: k in patch ==> !IsOperatorKey(k)
    ensures SetEntries(patch) == patch && !MalformedOperator(patch)
    ensures OperatorFields(patch, "$push") == map[] && OperatorFields(patch, "$inc") == map[]
  {
    assert IsOperatorKey("$set") && IsOperatorKey("$push") && IsOperatorKey("$inc");
  }

  /** Dotted ledger paths are neither operator keys nor schema paths. */
  lemma DottedKeys(patch: Payload)
    requires forall k :: k in patch ==> HasPrefix(k, "ratings.")
    ensures forall k :: k in patch ==> !IsOperatorKey(k)
    ensures forall k :: k in SchemaPaths ==> k !in patch
  {
    forall k | k in patch
      ensures !IsOperatorKey(k) && k !in SchemaPaths
    {
      DottedIsNoOperator(k);
      DottedIsNoSchemaPath(k);
    }
  }

  /** A patch of dotted ledger paths only is its ledger stage. */
  lemma DottedOnlyPatch(b: Book, patch: Payload)
    requires forall k :: k in patch ==> HasPrefix(k, "ratings.")
    ensures ApplyPatch(b, patch) == match SetRatingPaths(b.ratings, patch, 0)
                                   case Err(e) => Err(e)
                                   case Ok(rs) => Ok(b.(ratings := rs))
  {
    DottedKeys(patch);
    PlainSetEntries(patch);
    SetOnlyPatch(b, patch);
    assert ApplyKeys(b, patch, SchemaPaths) == Ok(b);
  }

  /** `$set` of `ratings.0.grade` on a book rated once replaces that grade alone. */
  lemma DottedGradePatch(b: Book, grade: real)
    requires |b.ratings| == 1
    ensures ApplyPatch(b, map[RatingKey(0) + ".grade" := Num(grade)])
            == Ok(b.(ratings := [b.ratings[0].(grade := grade)]))
  {
    var key := RatingKey(0);
    var p := map[key + ".grade" := Num(grade)];
    DottedOnlyPatch(b, p);
    GradeEntry(b.ratings[0], key, grade);
    RatingPathsOfOne(b.ratings[0], p);
    assert b.ratings == [b.ratings[0]];
  }

  /** A patch of plain keys with no dotted ledger path is applied path by path. */
  lemma PlainPatch(b: Book, patch: Payload)
    requires forall k :: k in patch ==> !IsOperatorKey(k) && !HasPrefix(k, "ratings.")
    ensures ApplyPatch(b, patch) == ApplyKeys(b, patch, SchemaPaths)
  {
    PlainSetEntries(patch);
    SetOnlyPatch(b, patch);
  }

  /** A patch of one key among distinct paths sets that path and nothing else. */
  lemma {:induction false} ApplyOneKey(b: Book, key: string, v: Value, keys: seq<string>)
    requires key in keys
    requires forall i, j :: 0 <= i < j < |keys| ==> keys[i] != keys[j]
    ensures ApplyKeys(b, map[key := v], keys) == SetPath(b, key, v)
    decreases |keys|
  {
    var p := map[key := v];
    if keys[0] == key {
      forall k | k in keys[1..] ensures k !in p {
        var j :| 0 <= j < |keys[1..]| && keys[1..][j] == k;
        assert keys[j + 1] == k;
      }
    } else {
      ApplyOneKey(b, key, v, keys[1..]);
    }
  }

  lemma SchemaPathsDistinct()
    ensures forall i, j :: 0 <= i < j < |SchemaPaths| ==> SchemaPaths[i] != SchemaPaths[j]
  {
  }

  /** Without the controller's stripping, one key is enough to overwrite the owner. */
  lemma PatchCanSetOwner(b: Book, intruder: string)
    ensures ApplyPatch(b, map["userId" := Str(intruder)]) == Ok(b.(userId := intruder))
  {
    PlainPatch(b, map["userId" := Str(intruder)]);
    SchemaPathsDistinct();
    assert SchemaPaths[0] == "userId";
    ApplyOneKey(b, "userId", Str(intruder), SchemaPaths);
  }

  lemma SetTitle(b: Book, title: string)
    ensures SetPath(b, "title", Str(title)) == Ok(b.(title := Trim(title)))
  {
    assert IsTrimmedPath("title");
  }

  /** An update does not re-run validation: a stored book can end up with an empty
      title, which `save()` would refuse. */
  lemma PatchSkipsValidation(b: Book)
    requires ValidBook(b)
    ensures ApplyPatch(b, map["title" := Str(" ")]).Ok?
    ensures !ValidBook(ApplyPatch(b, map["title" := Str(" ")]).value)
  {
    PlainPatch(b, map["title" := Str(" ")]);
    SchemaPathsDistinct();
    assert SchemaPaths[1] == "title";
    ApplyOneKey(b, "title", Str(" "), SchemaPaths);
    SetTitle(b, " ");
    TrimBlank();
  }

  /** The schema does not enforce one rating per rater: a book rated twice by the
      same user passes validation. */
  lemma SchemaAllowsRepeatedRater()
    ensures exists b :: ValidBook(b) && |b.ratings| == 2 && b.ratings[0].userId == b.ratings[1].userId
  {
    var b := Book("u", "t", "a", "i", 2020.0, "g", [Rating("r", 1.0), Rating("r", 2.0)], 1.5);
    assert ValidBook(b);
  }
}
