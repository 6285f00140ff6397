# Book-review backend: ratings, ownership and request checks in Dafny

This project models the computational core of a small Express/Mongoose backend
for a book-review site. Users rate books and owners manage their own records.

- **Rating ledger** (`exports.rate`). Each book holds an insertion-ordered list of
  `{userId, grade}` and an `averageRating`. A rating is refused when its grade is
  NaN or outside [0, 5] (before any lookup), when the book is missing, or when the
  rater already appears. Otherwise one entry is appended and the average becomes
  `Math.round(sum / n * 10) / 10`, written as `floor(x + 1/2)` over exact reals.
- **Ownership and protected fields** (`create`, `update`, `remove`). `create`
  forces the owner to the authenticated caller, with no ratings and an average of 0.
  `update` and `remove` answer 403 when the book is missing or owned by someone
  else. `update` deletes the top-level keys `userId`, `ratings` and
  `averageRating` from the client payload before `updateOne` applies it. The
  model's `updateOne` accepts Mongoose's update syntax: plain keys, `$set`, dotted
  `ratings.<i>` paths, `$push` and `$inc`.
- **String helpers**. These are `cleanId`, the safe-filename chain of
  `saveOptimizedImage`, and the name `deleteImageFromUrl` extracts from a stored URL.
- **Bearer-header middleware**. The header is split on single spaces. The scheme
  must be exactly `Bearer` and a non-empty token must follow. `jwt.verify` is an
  oracle parameter. Only on success is `req.auth` set and `next` called.
- **Book document**. The schema is modelled as datatypes plus what its validators
  and setters accept (required paths, grade range, trimming, defaults).

Modules: `Common` (Option, Result), `Text` (JavaScript string primitives),
`BookSchema` (models/Book.js), `ImageNames` and `Ledger` (the pure parts of
controllers/bookController.js), `Http` (replies), `BookController` (the
`BookStore` class over a `map<string, Book>`), `AuthGuard` (middleware/auth.js).

The store invariant `StoreValid` says three things about every stored book. Its
key is an ObjectId written with lower-case digits, as the database stores it.
Every lookup first casts the cleaned id to that key (`ObjectIdKey`), so an id
spelled with upper-case letters reaches the same record. Its trimmed fields are trimmed. Its ledger is consistent: the
raters are distinct, every grade is in range, and the average is derived from the
entries (0 when there are none). Every state-changing method keeps this invariant.
`update` keeps it only with the corrected stripping `SanitizeUpdate`. The three
deletions as written let an operator or a dotted path through (see "## Findings").

## Behaviour of the code worth knowing

Each item is a fact about the code as written, and the member named with it
states it.
- A missing book gives 403 from `update` and `remove`, not 404
  (controllers/bookController.js lines 101 and 131;
  `BookController.UpdateRefusesNonOwner`, `BookController.RemoveRefusesNonOwner`).
- An id that is not 24 hexadecimal digits makes `findById` throw. The result is
  400 from `getOne`, `update` and `remove`, but 500 from `rate`, because the catch
  blocks differ (`BookController.BookStore.GetOne`, `BookController.RateOutcome`).
- The hexadecimal letters of an id may be written in either case. `findById`
  finds `abcdef0123456789abcdef01` when asked for `ABCDEF0123456789ABCDEF01`
  (`BookController.ObjectIdKey`, `BookController.UpperCaseSpelling`).
- `create` accepts a request without an image. `saveOptimizedImage` then returns
  `null`, and the stored URL ends in `/images/null` (`BookController.CreatedUrl`).
- `updateOne` runs setters (`trim`) but not validators. So an update can store an
  empty title (`BookSchema.PatchSkipsValidation`). A later `rate` on that book then
  fails the validation of `save()` and answers 500.
- A multipart `update` releases the old image before parsing the new metadata. So
  the image is released even when that update then fails with 400
  (`BookController.UpdateReleasesOldImage`).
- The name `deleteImageFromUrl` passes on is not confined to the images directory.
  A URL set through a JSON `update` can end in `/images/../app.js`
  (`ImageNames.ExtractedNameMayClimb`).
- A token `jwt.verify` accepts but that carries no `userId` still passes the
  middleware, with `req.auth.userId` undefined (`AuthGuard.Authenticate`).
- The three deletions of `update` reach only top-level keys, while `updateOne`
  also accepts update operators and dotted paths; see "## Findings".

## Model

| member | source | states |
|---|---|---|
| `Text.Trim` | models/Book.js:14 | the result has no whitespace at either end and is no longer than the input |
| `Text.TrimIsPiece` | models/Book.js:14 | the result is a contiguous piece of the input, and everything cut on either side is whitespace |
| `Text.TrimSubset` | models/Book.js:14 | every character of the result comes from the input |
| `Text.TrimOfTrimmed` | models/Book.js:14 | an already trimmed string is unchanged |
| `Text.TrimBlank` | models/Book.js:14 | a single space trims to the empty string |
| `Text.IsWhitespace` | models/Book.js:14 | definition of the characters JavaScript's `trim` and `\s` treat as whitespace; `Text.Trim` and `ImageNames.CollapseWhitespace` are stated in its terms |
| `Text.Keep` | controllers/bookController.js:8 | what a global `replace` with a one-character class and an empty replacement leaves: never longer, and the same set of characters as the input's kept ones; `Text.KeepConcat` and `Text.KeepOne` fix the result exactly |
| `Text.KeepOne` | controllers/bookController.js:8 | a single character is kept exactly when it passes the test |
| `Text.KeepConcat` | controllers/bookController.js:8 | filtering a concatenation filters each part and concatenates, so the kept characters stay in order with their repetitions |
| `Text.Split` | middleware/auth.js:11 | `split` on one character always gives at least one piece, and no piece contains the separator |
| `Text.JoinSplit` | middleware/auth.js:11 | joining the pieces with the separator gives back the original header |
| `Text.SplitAtFirst` | middleware/auth.js:11 | the first piece is the text before the first separator, and the other pieces are those of the rest |
| `Text.IndexOf` | controllers/bookController.js:34 | the result is the first occurrence at or after `from`, or None when there is no occurrence from there on |
| `Text.SecondPiece` | controllers/bookController.js:34 | `split(sep)[1]` is undefined exactly when `sep` does not occur; otherwise it is the text from the end of the first occurrence to the next occurrence, or to the end of the string |
| `Text.BoundsFromIndexOf` | controllers/bookController.js:34 | the first occurrence and the one after it, described by position, are what the two `indexOf` searches find |
| `Text.AllBoundsFromIndexOf` | controllers/bookController.js:34 | the same for every pair of such positions |
| `Text.BoundsExist` | controllers/bookController.js:34 | when the separator occurs, such a pair of positions exists |
| `Text.SecondPieceFree` | controllers/bookController.js:34 | the second piece of the split never contains the separator |
| `Text.NoOccurrenceBetween` | controllers/bookController.js:34 | a window of the string where no occurrence of the pattern starts does not contain the pattern |
| `Text.FirstAfterHead` | controllers/bookController.js:34 | in `head + sep + name`, `indexOf(sep)` is the length of `head` when no earlier occurrence fits |
| `Text.NoneInName` | controllers/bookController.js:34 | no occurrence of `sep` starts after `head + sep` when `name` does not contain it |
| `Text.SecondPieceOfJoin` | controllers/bookController.js:34 | when the separator first occurs right after a head and never in the name that follows, the second piece is that name |
| `Text.NatToString` | controllers/bookController.js:21 | the timestamp is printed as a non-empty string of decimal digits with no leading zero |
| `Text.DecimalRoundTrip` | controllers/bookController.js:21 | reading the printed timestamp back gives the timestamp; `ImageNames.ImageFilenameInjective` builds on it |
| `ImageNames.CleanId` | controllers/bookController.js:8 | the cleaned id has no `"` or `\`, no whitespace at either end, and is no longer than the input |
| `ImageNames.CleanIdIdempotent` | controllers/bookController.js:8 | cleaning twice gives the same id as cleaning once |
| `ImageNames.StripExtension` | controllers/bookController.js:17 | when the regex `\.[^/.]+$` matches at k the result is the text before k; when it matches nowhere the name is unchanged |
| `ImageNames.NoDotNoExtension` | controllers/bookController.js:17 | a name without `.` has no extension for the regex to remove |
| `ImageNames.ExtensionAtLastDot` | controllers/bookController.js:17 | the regex can only match at the last `.`, and matches there exactly when a non-empty text without `/` follows it |
| `ImageNames.ExtensionUnique` | controllers/bookController.js:17 | that regex matches at no more than one position |
| `ImageNames.CollapseWhitespace` | controllers/bookController.js:18 | the result holds no whitespace and is no longer than the input; `CollapseRun` pins down that each whole run becomes one `_` |
| `ImageNames.CollapseKeepsText` | controllers/bookController.js:18 | ignoring underscores, the result has exactly the non-whitespace characters of the input, in order |
| `ImageNames.CollapseWithoutWhitespace` | controllers/bookController.js:18 | a name without whitespace is unchanged |
| `ImageNames.TrimStartOfRun` | controllers/bookController.js:18 | `\s+` is greedy: a run of whitespace is consumed up to the first other character |
| `ImageNames.CollapseCons` | controllers/bookController.js:18 | a character other than whitespace is copied unchanged |
| `ImageNames.CollapseRunStart` | controllers/bookController.js:18 | a whole run of whitespace at the start becomes a single `_` |
| `ImageNames.CollapseRun` | controllers/bookController.js:18 | text without whitespace, then a whole run of whitespace, then the rest: the run becomes one `_` and the text before it is kept |
| `ImageNames.CollapseRunCons` | controllers/bookController.js:18 | the step of that induction: a leading character other than whitespace is kept in front |
| `ImageNames.KeepSafe` | controllers/bookController.js:19 | only `[A-Za-z0-9_.-]` characters remain, and the same set of such characters as in the input; `ImageNames.KeepSafeConcat` and `ImageNames.KeepSafeOne` fix the result exactly |
| `ImageNames.KeepSafeOne` | controllers/bookController.js:19 | a single character is kept exactly when it is in `[A-Za-z0-9_.-]` |
| `ImageNames.KeepSafeConcat` | controllers/bookController.js:19 | the safe characters of a concatenation are those of each part, in order |
| `ImageNames.SafeBase` | controllers/bookController.js:16-19 | the base name contains only `[A-Za-z0-9_.-]` and is no longer than the uploaded name |
| `ImageNames.SafeBaseOfSafe` | controllers/bookController.js:16-19 | a safe name without an extension passes through the chain unchanged |
| `ImageNames.ImageFilename` | controllers/bookController.js:21 | the filename is the safe base, then `-`, then exactly the decimal timestamp, then `.webp`; every character is safe, so there is no `/` |
| `ImageNames.FilenameShape` | controllers/bookController.js:21 | a safe base, `-`, a string of digits and `.webp` make a safe name with that prefix and suffix |
| `ImageNames.LayoutFixesStamp` | controllers/bookController.js:21 | one filename with a given base has only one timestamp text in its middle |
| `ImageNames.ImageFilenameInjective` | controllers/bookController.js:21 | two uploads of the same name get the same filename only at the same clock reading |
| `ImageNames.TemplateText` | controllers/bookController.js:14 | definition of a template literal's text for the upload's name: `null` when there is none; `BookController.CreatedUrl` states the URL it gives |
| `ImageNames.BuildImageUrl` | controllers/bookController.js:10-11 | definition: the base, then `/images/`, then the filename; `ImageNames.ExtractAfterBuild` and `ImageNames.StoredImageRoundTrip` state its inverse |
| `ImageNames.FilenameFromUrl` | controllers/bookController.js:32-35 | an extracted name is non-empty and contains no `/images/`; an empty URL or one without `/images/` yields nothing; otherwise the name is the text between the first `/images/` and the next one or the end, when that is non-empty |
| `ImageNames.ExtractAfterBuild` | controllers/bookController.js:32-35 | for a base free of `/images/`, extraction returns exactly the name appended after `/images/` |
| `ImageNames.NoSlashNoImagesDir` | controllers/bookController.js:34 | a string without `/` never contains `/images/` |
| `ImageNames.StoredImageRoundTrip` | controllers/bookController.js:16-35 | the URL stored for an upload yields that upload's own filename when the book is deleted |
| `ImageNames.ExtractedNameMayClimb` | controllers/bookController.js:34-36 | a URL ending in `/images/../app.js` yields `../app.js` for unlinking |
| `BookSchema.CastString` | models/Book.js:14-16 | definition: a String path takes only a string, and trimmed paths store it trimmed; `BookSchema.RequiredString` and `BookSchema.FromPayload` build on it |
| `BookSchema.RequiredString` | models/Book.js:13-18 | a required string path must be present, be a string, and be non-empty after its setter; the result is trimmed on trimmed paths |
| `BookSchema.RequiredNumber` | models/Book.js:17 | definition: a required number path must be present and hold a number; `BookSchema.FromPayload` states what it makes of a document |
| `BookSchema.FromPayload` | models/Book.js:11-21 | a new document is accepted exactly when every required path is usable; it is then valid and trimmed, has `ratings` [] and `averageRating` 0, and carries the client's metadata |
| `BookSchema.FromPayloadReadsOnlyMetadata` | controllers/bookController.js:81-86 | construction reads only `userId`, `title`, `author`, `year` and `genre` from the client data |
| `BookSchema.CastRatings` | models/Book.js:3-9 | a ratings array casts exactly when every element is an object with a string `userId` and a numeric `grade`; entry i is then element i's rating, and a failure is a cast error on `ratings` |
| `BookSchema.ValidRating` | models/Book.js:5-6 | definition of what validation accepts of a rating: a non-empty `userId` and a grade in [0, 5]; `BookSchema.FromPayload` and `BookController.RatingKeepsValid` are stated in its terms |
| `BookSchema.ValidBook` | models/Book.js:13-19 | definition of what validation on `save()` accepts: each required string non-empty and every rating valid, with no rule on repeated raters; `BookSchema.FromPayload` and `BookSchema.SchemaAllowsRepeatedRater` are stated in its terms |
| `BookSchema.IsRatingValue` | models/Book.js:3-9 | definition of a JSON value that casts to a rating: an object with a string `userId` and a numeric `grade` |
| `BookSchema.RatingOf` | models/Book.js:3-9 | definition of the rating such a value casts to; `BookSchema.CastRatings` states it element by element |
| `BookSchema.SetPath` | controllers/bookController.js:118 | setting any schema path other than the three protected ones keeps the owner and the ledger; setters keep trimmed fields trimmed |
| `BookSchema.ApplyKeys` | controllers/bookController.js:118 | applying plain schema paths keeps the owner and the ledger when no protected key is present, keeps trimming, and changes nothing when no listed key is present |
| `BookSchema.OperatorFields` | controllers/bookController.js:118 | an operator key holding an object gives that object, and anything else gives no paths |
| `BookSchema.SetEntries` | controllers/bookController.js:118 | the paths `$set` receives are those of `$set` plus every plain top-level key, and a plain key wins over the same key in `$set` |
| `BookSchema.RatingKey` | controllers/bookController.js:118 | the key `ratings.<i>` of a stored entry, and the keys of its two fields, all lie below `ratings.` |
| `BookSchema.SetRatingEntry` | controllers/bookController.js:118 | a stored entry with none of its dotted paths set is left as it was |
| `BookSchema.SetRatingPaths` | controllers/bookController.js:118 | dotted ledger paths keep the number of entries, and without any path below `ratings.` the ledger is unchanged |
| `BookSchema.PushRating` | controllers/bookController.js:118 | `$push` on `ratings` appends the cast entry and changes nothing else; without it the book is unchanged |
| `BookSchema.IncNumbers` | controllers/bookController.js:118 | `$inc` adds to `year` and `averageRating` the numbers given for them and changes nothing else |
| `BookSchema.ApplySets` | controllers/bookController.js:118 | the `$set` stage keeps the owner and the ledger when no path reaches them, keeps trimming, and without dotted ledger paths is the schema-path stage alone |
| `BookSchema.ApplyOperators` | controllers/bookController.js:118 | the `$push` and `$inc` stages keep the owner and trimming, keep the ledger until `ratings` or `averageRating` is named, and with no operator change nothing |
| `BookSchema.SanitizedStages` | controllers/bookController.js:118 | in an update that touches no protected path, no `$set` path, `$push` of `ratings` or `$inc` of `averageRating` is present |
| `BookSchema.ApplyPatch` | controllers/bookController.js:118 | `updateOne` with an update that reaches neither the owner nor the ledger (`Sanitized`) keeps `userId`, `ratings` and `averageRating`; it always keeps trimmed fields trimmed; an update with an unknown `$` operator, or an operator whose value is not an object, is refused (`MalformedOperator`), and so is one that names one cast path in two of the `$set`, `$push` and `$inc` stages (`StagesConflict`) |
| `BookSchema.UnknownOperatorRefused` | controllers/bookController.js:118 | an update naming an operator the database does not know, on a schema path, is refused |
| `BookSchema.EmptyUnknownOperatorDropped` | controllers/bookController.js:118 | an unknown operator the cast leaves empty is dropped, and the update changes nothing |
| `BookSchema.ConflictingStagesRefused` | controllers/bookController.js:118 | setting and incrementing `year` in one update is refused |
| `BookSchema.NonObjectOperatorRefused` | controllers/bookController.js:118 | an operator holding a number is refused |
| `BookSchema.ApplyOneKey` | controllers/bookController.js:118 | a patch with a single schema key sets exactly that path |
| `BookSchema.SetTitle` | models/Book.js:14 | setting `title` stores the trimmed title and changes nothing else |
| `BookSchema.PatchCanSetOwner` | controllers/bookController.js:114-118 | without the controller's stripping, a plain `userId` key would overwrite the owner |
| `BookSchema.SetOnlyPatch` | controllers/bookController.js:118 | an update without `$push` and `$inc` is its `$set` stage |
| `BookSchema.NoSets` | controllers/bookController.js:118 | the `$set` stage with no paths changes nothing |
| `BookSchema.PushOnlyParts` | controllers/bookController.js:118 | an update holding only `$push` has no `$set` paths and no `$inc` |
| `BookSchema.PushOnlyPatch` | controllers/bookController.js:118 | an update holding only `$push` is the `$push` stage |
| `BookSchema.SetEntriesOfSet` | controllers/bookController.js:118 | the paths of an update holding only `$set` are that object's keys |
| `BookSchema.PlainSetEntries` | controllers/bookController.js:118 | an update without operator keys is all `$set` paths, with no `$push` or `$inc` |
| `BookSchema.DottedIsNoSchemaPath` | controllers/bookController.js:118 | a path below `ratings.` is none of the schema's own paths |
| `BookSchema.DottedIsNoOperator` | controllers/bookController.js:118 | a path below `ratings.` is no operator key |
| `BookSchema.DottedKeys` | controllers/bookController.js:118 | an update of paths below `ratings.` holds no operator key and no schema path |
| `BookSchema.DottedOnlyPatch` | controllers/bookController.js:118 | an update of paths below `ratings.` is the ledger stage alone |
| `BookSchema.GradeEntry` | controllers/bookController.js:118 | `$set` of `<entry>.grade` alone replaces that entry's grade |
| `BookSchema.RatingPathsOfOne` | controllers/bookController.js:118 | on a ledger of one entry the ledger stage is that entry's update |
| `BookSchema.DottedGradePatch` | controllers/bookController.js:118 | `ratings.0.grade` on a book rated once replaces the grade and nothing else |
| `BookSchema.PlainPatch` | controllers/bookController.js:118 | an update of plain keys with no path below `ratings.` is applied path by path over the schema paths |
| `BookSchema.PatchSkipsValidation` | controllers/bookController.js:118 | an update can leave a book that validation would refuse (a blank title) |
| `BookSchema.SchemaAllowsRepeatedRater` | models/Book.js:19 | the schema accepts two ratings from the same rater; only the controller prevents this |
| `Ledger.AcceptedGrade` | controllers/bookController.js:149-153 | a grade is accepted exactly when it is a finite number in [0, 5], and is then stored as given |
| `Ledger.LessThan` | controllers/bookController.js:151 | definition of JavaScript's `x < c` on a number that may be NaN or infinite; `Ledger.AcceptedGrade` is stated in its terms |
| `Ledger.GreaterThan` | controllers/bookController.js:151 | definition of JavaScript's `x > c` in the same way; `Ledger.AcceptedGrade` is stated in its terms |
| `Ledger.HasRated` | controllers/bookController.js:158 | `some` is true exactly when some entry has the caller as rater |
| `Ledger.AppendKeepsDistinct` | controllers/bookController.js:158-163 | appending a rater not yet present keeps the raters distinct |
| `Ledger.SumGrades` | controllers/bookController.js:165 | the sum of grades in [0, 5] lies between 0 and 5 times the count |
| `Ledger.SumAppend` | controllers/bookController.js:163-165 | appending an entry adds its grade to the sum |
| `Ledger.JsRound` | controllers/bookController.js:166 | `Math.round(x)` is the integer within one half of x, with halves rounded up |
| `Ledger.AverageOf` | controllers/bookController.js:166 | the average is a whole number of tenths |
| `Ledger.AverageNearMean` | controllers/bookController.js:166 | the average is within 0.05 of the exact mean of the grades |
| `Ledger.MeanInRange` | controllers/bookController.js:165-166 | the mean of grades in [0, 5] is in [0, 5] |
| `Ledger.AverageInRange` | controllers/bookController.js:165-166 | the rounded average of grades in [0, 5] is in [0, 5] |
| `Ledger.ConsistentAverageInRange` | controllers/bookController.js:165-166 | a consistent ledger's stored average is in [0, 5] |
| `Ledger.SingleRatingAverage` | controllers/bookController.js:163-166 | a book rated once with a grade in tenths shows that grade, e.g. 4 gives 4.0 |
| `Ledger.WithRating` | controllers/bookController.js:163-166 | definition: the list becomes the old list plus the new entry, earlier entries untouched, and the average is redone over the new list; `Ledger.WithRatingKeepsConsistent` and `Ledger.RatingSequence` state what it keeps |
| `Ledger.WithRatingKeepsConsistent` | controllers/bookController.js:158-166 | accepting a new rater with a grade in range keeps the ledger consistent |
| `Ledger.LedgerConsistent` | controllers/bookController.js:158-166 | definition of what `rate` keeps: distinct raters, every rating valid, and the average derived from the entries (0 for none); `Ledger.WithRatingKeepsConsistent` states it is kept |
| `Ledger.RatedEntries` | controllers/bookController.js:163 | after N ratings on an unrated book, entry i holds the i-th rater and grade |
| `Ledger.LastRating` | controllers/bookController.js:163 | the N-th rating appends its entry after those of the first N-1 |
| `Ledger.EntriesExtend` | controllers/bookController.js:163 | entries matching the first N-1 raters and grades, plus the N-th, match all N |
| `Ledger.RatingSequence` | controllers/bookController.js:158-166 | N ratings from N raters on an unrated book leave exactly those N entries in arrival order, and their rounded mean |
| `BookController.StoredName` | controllers/bookController.js:13-21 | a name is produced exactly when a file was uploaded, and it is safe |
| `BookController.Released` | controllers/bookController.js:32-36 | at most one file is unlinked, and none when no name can be extracted |
| `BookController.IsObjectId` | controllers/bookController.js:55-59 | definition of the ids `findById` casts: 24 hexadecimal digits in either case; for any other id `getOne`, `update` and `remove` answer 400 and `rate` answers 500 (`BookController.BookStore.GetOne`, `BookController.MalformedIdRefused`) |
| `BookController.LowerHex` | controllers/bookController.js:55 | the cast keeps every hexadecimal digit a hexadecimal digit and leaves no upper-case letter A-F; digits and lower-case letters are unchanged |
| `BookController.ObjectIdKey` | controllers/bookController.js:55 | the key `findById` looks up has the id's length, is the id digit by digit in lower case, is an ObjectId exactly when the id is, and is then a stored id |
| `BookController.StoredIdIsOwnKey` | controllers/bookController.js:55 | a stored id is found under its own spelling |
| `BookController.SpellingsFindSameRecord` | controllers/bookController.js:55 | two spellings reach the same record exactly when they agree digit by digit ignoring case |
| `BookController.UpperCaseSpelling` | controllers/bookController.js:55 | `ABCDEF0123456789ABCDEF01` is looked up as `abcdef0123456789abcdef01` |
| `BookController.MalformedIdRefused` | controllers/bookController.js:96-173 | an id that does not cast gives 400 from `update` and `remove` and, after a good grade, 500 from `rate` (400 for a bad grade), with the store and the unlink log unchanged |
| `BookController.StripProtected` | controllers/bookController.js:114-116 | the three deletions as written: the payload loses exactly the top-level `userId`, `ratings` and `averageRating`; every other key, operator objects included, passes through unchanged |
| `BookController.StripInSteps` | controllers/bookController.js:114-116 | the three in-place deletions remove the same keys |
| `BookController.AsWrittenUpdatedBook` | controllers/bookController.js:114-118 | the update as written keeps the owner and the ledger only when the stripped data is `Sanitized`, and always keeps trimming |
| `BookController.SetOperatorChangesOwner` | controllers/bookController.js:114-118 | `{"$set": {"userId": x}}` passes the three deletions and makes x the owner |
| `BookController.PushOperatorRepeatsRater` | controllers/bookController.js:114-118 | `$push` of a rating by a rater already present passes the deletions and leaves that rater twice in the ledger |
| `BookController.DottedPathChangesGrade` | controllers/bookController.js:114-118 | `ratings.0.grade` passes the deletions and changes a stored grade, leaving the average as it was |
| `BookController.StripFields` | controllers/bookController.js:114-118 | an operator object loses exactly its fields reaching the owner or the ledger, and keeps the others unchanged |
| `BookController.SanitizeUpdate` | controllers/bookController.js:114-118 | the corrected stripping: the result is `Sanitized`; it keeps exactly the top-level keys reaching neither the owner nor the ledger, values unchanged except operator objects, which lose only such fields |
| `BookController.SanitizeKeepsSafePatch` | controllers/bookController.js:114-118 | an update that is already `Sanitized` loses nothing |
| `BookController.UpdateData` | controllers/bookController.js:105-112 | definition: a JSON body is used as it is; a multipart body uses the parsed `book` field with `imageUrl` set to the new image, and fails when that field does not parse; `BookController.BookStore.PrepareUpdate` is proved against it |
| `BookController.UpdatedBook` | controllers/bookController.js:114-118 | the corrected update: after the three deletions and `SanitizeUpdate`, an update never changes the owner, the ratings or the average, and keeps trimmed fields trimmed |
| `BookController.SanitizedSetKeepsOwner` | controllers/bookController.js:114-118 | the `$set` payload that moves the owner as written leaves the book as it was |
| `BookController.UpdateKeepsConsistent` | controllers/bookController.js:114-118 | an applied update keeps a consistent book consistent |
| `BookController.UpdateWithoutKnownKeys` | controllers/bookController.js:114-118 | a payload of plain keys that are protected, below a protected path or unknown to the schema leaves the book as it was |
| `BookController.StoreValidInsert` | controllers/bookController.js:88 | storing a consistent book under a lower-case ObjectId keeps the store invariant |
| `BookController.OneSpellingPerRecord` | controllers/bookController.js:88 | a valid store never holds one ObjectId under two spellings |
| `BookController.StoreValidRemove` | controllers/bookController.js:136 | deleting a record keeps the store invariant |
| `BookController.StoreValid` | controllers/bookController.js:88 | definition of the store invariant: every key an ObjectId in lower case and every book trimmed with a consistent ledger; `BookController.StoreValidInsert` and the `Keeps` lemmas state it is kept |
| `BookController.CreatedUrl` | controllers/bookController.js:77-83 | the stored URL is the base, `/images/` and the upload's filename, or `null` in its place without a file |
| `BookController.CreateOutcome` | controllers/bookController.js:74-93 | a creation never unlinks anything; it either answers 201 or answers 400 with the store unchanged |
| `BookController.CreateSucceedsIff` | controllers/bookController.js:76-91 | a creation answers 201 exactly when the payload parses and the document built with the caller as owner validates |
| `BookController.CreateAddsOne` | controllers/bookController.js:88 | a successful creation adds one record, under the new id, and leaves the others as they were |
| `BookController.CreatedBookIsCallers` | controllers/bookController.js:79-86 | the new record is owned by the caller, has no ratings and an average of 0, carries the new URL and is valid |
| `BookController.CreateKeepsStoreValid` | controllers/bookController.js:74-93 | a creation under a lower-case ObjectId keeps the store invariant |
| `BookController.UpdateReleases` | controllers/bookController.js:107-108 | definition: an owner's multipart request unlinks the old image and a JSON request unlinks nothing; `BookController.UpdateReleasesOldImage` ties it to the outcome |
| `BookController.UpdateOutcome` | controllers/bookController.js:96-123 | an update, given the key of the cleaned id, never adds or deletes a record, and answers 200, 400 or 403 |
| `BookController.UpdateApplies` | controllers/bookController.js:99-119 | an update answers 200 exactly when the owner's data parse and pass the schema, and the store then holds the updated book under that key; any other answer leaves the store as it was |
| `BookController.UpdateRefusesNonOwner` | controllers/bookController.js:99-103 | an update answers 403 exactly when the id is well formed and the book is missing or owned by someone else |
| `BookController.UpdateByOthersChangesNothing` | controllers/bookController.js:98-103 | a request from anyone but the owner changes no record and unlinks nothing |
| `BookController.UpdateKeepsOwnerAndLedger` | controllers/bookController.js:114-118 | with the corrected stripping, an update changes no record but the requested one, and on that one never the owner, the ratings or the average |
| `BookController.UpdateReleasesOldImage` | controllers/bookController.js:107-110 | an owner's multipart request unlinks the old image even when its metadata then fails |
| `BookController.UpdateKeepsStoreValid` | controllers/bookController.js:96-123 | an update keeps the store invariant |
| `BookController.RemoveOutcome` | controllers/bookController.js:126-142 | a deletion, given the key of the cleaned id, removes at most the requested record and unlinks at most one name |
| `BookController.RemoveRefusesNonOwner` | controllers/bookController.js:128-133 | a deletion succeeds exactly for the owner of an existing book; otherwise nothing is deleted or unlinked, and a well-formed id gets 403 |
| `BookController.RemoveByOwner` | controllers/bookController.js:135-138 | the owner's request deletes exactly that record and unlinks its image |
| `BookController.RemoveKeepsStoreValid` | controllers/bookController.js:126-142 | a deletion keeps the store invariant |
| `BookController.RateOutcome` | controllers/bookController.js:145-173 | a rating, given the key of the cleaned id, never unlinks anything and never adds or deletes a record |
| `BookController.RateRefusals` | controllers/bookController.js:151-161 | a bad grade gives 400 before any lookup, a missing book 404, a repeat rater 400, each with the store unchanged |
| `BookController.RateAppendsOne` | controllers/bookController.js:158-169 | the store changes only for a good grade from a new rater on an existing book, by that book with the one entry appended and the average redone, and the reply carries it |
| `BookController.RateAccepts` | controllers/bookController.js:151-169 | a rating answers 200 exactly for a good grade from a new rater on an existing book whose rated version passes validation; the store then holds that version and the reply carries it |
| `BookController.RateKeepsStoreValid` | controllers/bookController.js:145-173 | a rating keeps the store invariant; a rater already present is refused, so with the corrected update (which drops `$push` of `ratings`) no rater ever appears twice in a stored book. As written, `$push` can repeat a rater (`BookController.PushOperatorRepeatsRater`) |
| `BookController.BookStore.ReleaseImage` | controllers/bookController.js:32-37 | the unlink log grows by exactly the extracted name, or not at all |
| `BookController.BookStore.GetOne` | controllers/bookController.js:52-61 | a malformed id gives 400; otherwise the id's lower-case key is looked up: a missing book gives 404 "Book not found", a present one 200 with the document, whatever the case of the id's letters |
| `BookController.BookStore.Create` | controllers/bookController.js:74-93 | the reply, the store and the unlink log are those of `CreateOutcome`, and the store invariant holds |
| `BookController.BookStore.PrepareUpdate` | controllers/bookController.js:105-112 | the update data is `UpdateData`, and the unlink log grows by `UpdateReleases` |
| `BookController.BookStore.Update` | controllers/bookController.js:96-123 | the reply, the store and the unlink log are those of `UpdateOutcome` on the key of the cleaned id, and the store invariant holds; after the three deletions the data also passes through `SanitizeUpdate` |
| `BookController.BookStore.Remove` | controllers/bookController.js:126-142 | the reply, the store and the unlink log are those of `RemoveOutcome` on the key of the cleaned id, and the store invariant holds |
| `BookController.BookStore.Rate` | controllers/bookController.js:145-173 | the reply, the store and the unlink log are those of `RateOutcome` on the key of the cleaned id, and the store invariant holds |
| `BookController.RatingKeepsValid` | controllers/bookController.js:163-168 | a valid book with an accepted rating from a non-empty caller still passes validation on save |
| `BookController.CreateIgnoresProtectedKeys` | controllers/bookController.js:76-86 | the created book is the same whatever the client sent as `userId`, `ratings` or `averageRating`, and its owner is the caller |
| `AuthGuard.BearerToken` | middleware/auth.js:11-15 | an extracted token is non-empty and contains no space |
| `AuthGuard.BearerShapedGivesToken` | middleware/auth.js:11-15 | `Bearer`, one space, a token, then the end or a space: that token is extracted |
| `AuthGuard.TokenComesFromBearerShape` | middleware/auth.js:11-15 | an extracted token always comes from a header of that shape |
| `AuthGuard.BearerTokenIff` | middleware/auth.js:11-15 | a token is extracted exactly from headers of that shape; pieces after the second are ignored |
| `AuthGuard.DoubleSpaceRefused` | middleware/auth.js:11-13 | `Bearer` followed by two spaces is refused |
| `AuthGuard.Authenticate` | middleware/auth.js:5-18 | no header or an empty one is Missing; a malformed one is BadFormat; a token the verifier refuses is Unauthorized; otherwise the result carries the verified token's userId |
| `AuthGuard.Rejection` | middleware/auth.js:7-23 | every refusal answers 401: a missing header with "Missing Authorization header", a malformed one with "Invalid Authorization format", a refused token with "Unauthorized" |
| `AuthGuard.RejectionsDistinct` | middleware/auth.js:7-23 | the three refusals give three different replies |
| `AuthGuard.Exchange.Guard` | middleware/auth.js:3-24 | on success `req.auth` holds the verified userId and `next` is called once; on any refusal `req.auth` stays unset, `next` is not called and a 401 reply is set |

## Findings

| source | as written | input that shows it | evidently intended | confidence | as-written member | corrected member |
|---|---|---|---|---|---|---|
| controllers/bookController.js:114-118 | the three `delete`s remove only the top-level keys `userId`, `ratings` and `averageRating`; `updateOne` then applies `$set`, `$push`, `$inc` and dotted paths, which reach the same fields | a JSON PUT by the owner with body `{"$set": {"userId": "x"}}` (the owner becomes x), `{"$push": {"ratings": {"userId": r, "grade": 1}}}` for a rater r already present (r is listed twice), or `{"ratings.0.grade": 0}` (a grade changes, the average does not) | an update never changes the owner, the ratings or the average, whatever form the client's update takes | not executed | `BookController.AsWrittenUpdatedBook`, shown by `BookController.SetOperatorChangesOwner`, `BookController.PushOperatorRepeatsRater` and `BookController.DottedPathChangesGrade` | `BookController.UpdatedBook`, which adds `BookController.SanitizeUpdate`; `BookController.UpdateKeepsOwnerAndLedger` and `BookController.UpdateKeepsStoreValid` prove the intended property, and `BookController.BookStore.Update` uses it |

## Left out

- Image processing: `sharp` resizing and webp encoding (controllers/bookController.js:24-27) and writing the file. Image I/O never fails in the model.
- `fs.unlink` itself, which is asynchronous and whose errors are ignored. The model only logs the name handed to it, in the ghost sequence `released`.
- `buildImageUrl` reads the request's protocol and `Host` header. The model passes them in as the parameter `urlBase`. `Date.now()` is the parameter `now`.
- Mongoose persistence is replaced by a map. A new record's ObjectId is the caller-supplied `freshId`. A client-supplied `_id` key is not modelled.
- Mongoose casting is simplified. A value of the wrong JSON type for its path (such as a number for a String path, or `null`) counts as a cast error. A ratings element must be an object with a string `userId` and a numeric `grade`.
- The texts of Mongoose and `JSON.parse` errors (`err.message`) are not modelled. They appear as `LibraryError`, and only the status code is kept.
- `JSON.parse` happens at the boundary. Its failure is the `None` of an `Option`, and a non-object result is not modelled.
- ObjectId casting follows the rule of current bson versions: 24 hexadecimal digits in either case, stored in lower case. The older rule that also accepted any 12-character string is not modelled.
- `getAll` and `getBestRating` only forward to the database's `find` and `sort`. They do no computation of their own, and the database's sort does not fix the order of ties.
- controllers/authController.js (signup, login) wraps bcrypt and `jwt.sign`, which are foreign cryptographic libraries. Login answers "User not found" and "Incorrect password" with different messages, so a client can tell which check failed.
- `jwt.verify` internals (signature, 24-hour expiry) are left out. The verifier is a parameter.
- routes/, app.js and config/db.js only wire the framework together and connect to the database.
- Concurrency: the race between two concurrent `rate` calls on one book is a database concern, and the model is sequential.
- Ledger.AverageOf: grades and averages are exact reals, not IEEE-754 doubles. So rounding errors in the last bits of `sum / n * 10` are not modelled.
- Ledger.AcceptedGrade: the conversion `Number(req.body.rating)` of the raw body happens at the boundary. The model receives its result as a `JsNumber`.
- BookController.BookStore.Create, BookController.BookStore.Update, BookController.BookStore.Remove, BookController.BookStore.Rate: the caller is a string. The middleware's undefined `userId`, for a token without that claim, is not carried into the controller. With it, `update` and `remove` would always answer 403 (lines 101 and 131), and `rate`'s `save()` would fail validation with 500.
- BookSchema.ApplyPatch: of Mongoose's update operators only `$set`, `$push` and `$inc` are applied; `$unset`, `$rename`, `$addToSet`, `$pull`, `$pullAll`, `$pop`, `$mul`, `$min`, `$max`, `$bit`, `$currentDate` and `$setOnInsert`, when they hold an object, are accepted and ignored. A `$` key holding anything but an object is refused. A `$` key naming no operator is refused when its object keeps a cast path (a schema path or a path below `ratings.`), and dropped otherwise. Other paths below a schema path (such as `title.x`) are not treated as cast paths. A path named by two stages is refused only when it is the same cast path in both; a conflict between a path and a path below it is not detected. `$rename` names its target path in a value, which `SanitizeUpdate` does not inspect, so the corrected guarantee covers the modelled operators.
- BookSchema.PushRating: the modifiers `$each`, `$position` and `$slice`, and `$push` onto paths other than `ratings`, are not modelled.
- BookSchema.IncNumbers: `$inc` on a path that is not a Number is ignored rather than refused by the database.
- BookSchema.SetRatingPaths: only the canonical keys `ratings.<i>`, `ratings.<i>.userId` and `ratings.<i>.grade` below the stored length are applied. Other dotted paths, an index past the end, a non-canonical index such as `ratings.00`, and two paths that conflict (which the database refuses) are not modelled.
- BookSchema.FromPayload: dotted keys and operator keys in the data `new Book` receives are not modelled.
