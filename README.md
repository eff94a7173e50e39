# Petition API: a verified model of its rules

The system is an Express/MySQL backend for a petition platform. Users register and log in.
Owners attach up to three support tiers to a petition, and other users pledge support at
a tier. The routes handle listing petitions, attaching images to petitions and users, and
reading supporter lists.

This project models the data-access functions and the route handlers that carry those
rules:

- The database is the class `Db.Database`. It holds the four tables (`users`, `petitions`,
  `supportTiers`, `supporters`) as sequences of records, plus the next auto-increment ids.
- Every data-access function that changes a table is a method on that class, with a
  field-level `modifies` clause. It is proved equal to a table-level function in the
  module named after its source file: `SupportTierModel`, `SupporterModel`, `UserModel`,
  `PetitionImageModel`, `UserImageModel`, `PetitionModel`.
- Every handler is two things:
  - a response function over the tables, which returns the status and the tables
    afterwards;
  - a method on the database, proved to answer and update exactly as that function says.
    Where the code as written has a bug (see "## Findings"), the method follows the
    corrected function: `SupportTierController.EditSupportTier`,
    `SupporterController.GetAllSupporters` and `UserImageController.SetImage`.
- The handler's inputs are plain values: the parsed id, the token header, the outcome of
  schema validation, the content type, and the clock reading.

The lemmas prove four kinds of property:

- check precedence;
- invariants preserved across the handlers: at most three tiers per petition, at least one
  tier once a petition has any, one pledge per user and tier, every pledge at a tier of its
  petition, and valid keys;
- frame conditions;
- the image round trip: a stored file name is served with the content type it was uploaded
  with.

`Text` models the string operations used: `path.extname`, `toLowerCase` on ASCII, and
decimal rendering.

## Model

| member | source | states |
|---|---|---|
| Text.Extname | src/app/controllers/petition.image.controller.ts:32 | Node's POSIX `path.extname`: empty, or a dot followed by no dot and no slash |
| Text.ExtnameOfDotted | src/app/controllers/petition.image.controller.ts:32 | the extension of `base.ext`, where base has no slash and ext has no dot, is `.ext` |
| Text.Lower | src/app/controllers/petition.image.controller.ts:32 | `toLowerCase` on ASCII: same length, each character lower-cased |
| Text.LowerOfLowercase | src/app/controllers/petition.image.controller.ts:32 | lower-casing leaves a string with no capital letter unchanged |
| Text.IntToString | src/app/controllers/petition.image.controller.ts:91 | the decimal rendering of an id contains no dot and no slash |
| ImageFormat.Subtype | src/app/controllers/petition.image.controller.ts:90 | `split('/')[1]` of an accepted type: the type is `image/` + subtype, and the subtype is non-empty with no slash or dot |
| ImageFormat.NewFilename | src/app/controllers/petition.image.controller.ts:91 | the name is `<id>_<now>.<subtype>` and contains no slash |
| ImageFormat.ContentTypeForExtension | src/app/controllers/petition.image.controller.ts:33-42 | the result is always an accepted type; png exactly for `.png`, gif exactly for `.gif`, otherwise jpeg |
| ImageFormat.NewFilenameExtension | src/app/controllers/petition.image.controller.ts:90-91 | the extension of a generated name is `.` + the subtype of its content type |
| ImageFormat.ExtensionOfSubtype | src/app/controllers/petition.image.controller.ts:33-42 | `.png`, `.jpeg` and `.gif` are lower case and map back to the type they came from |
| ImageFormat.ServedTypeOfNewFilename | src/app/controllers/petition.image.controller.ts:32-42 | a generated file name maps back to its upload type, with or without lower-casing |
| Http.Authenticate | src/app/controllers/petition.support_tier.controller.ts:18-28 | a user is found exactly when the header is truthy and some user holds that token; the user found holds it |
| Http.NotImplementedResponse | src/app/controllers/petition.controller.ts:54-122 | the stub handlers answer 501 and change no table |
| SupportTierModel.TiersOf | src/app/models/petitions.supportTiers.model.ts:11-13 | exactly the tiers of the petition |
| SupportTierModel.TitleTaken | src/app/models/petitions.supportTiers.model.ts:18-20 | true exactly when a tier of that petition has the title |
| SupportTierModel.TierInPetition | src/app/models/petition.supporter.model.ts:35-38 | true exactly when a tier has both the id and the petition id |
| SupportTierModel.SupportersExistForTier | src/app/models/petitions.supportTiers.model.ts:83-91 | true exactly when some pledge names the tier id, whatever its petition |
| SupportTierModel.AddSupportTier | src/app/models/petitions.supportTiers.model.ts:10-28 | succeeds exactly when the petition has fewer than 3 tiers and the title is free; the count error wins over the title error; on error nothing changes; on success exactly one row with the given fields is appended under the next id |
| SupportTierModel.AddKeepsAtMostThreeTiers | src/app/models/petitions.supportTiers.model.ts:10-15 | from at most 3 tiers per petition, adding keeps at most 3 |
| SupportTierModel.AddKeepsTitlesUnique | src/app/models/petitions.supportTiers.model.ts:17-22 | adding never gives two tiers of one petition the same title |
| SupportTierModel.BuildTierUpdate | src/app/models/petitions.supportTiers.model.ts:50-64 | the pushed `updates`/`values` are one `column = ?` per provided field, each beside its own value, in the order title, description, cost |
| SupportTierModel.ApplyTierAssignments | src/app/models/petitions.supportTiers.model.ts:70-72 | running the built SET list on a row replaces exactly the provided fields |
| SupportTierModel.AssignmentsEmpty | src/app/models/petitions.supportTiers.model.ts:66-68 | the SET list is empty exactly when no field is provided |
| SupportTierModel.EditSupportTier | src/app/models/petitions.supportTiers.model.ts:43-72 | refused with the supporter error when a pledge names the tier, and refused when no field is provided; on refusal nothing changes; otherwise every row with the id is patched with exactly the provided fields and every other row is kept |
| SupportTierModel.EditKeepsTierCounts | src/app/models/petitions.supportTiers.model.ts:71-72 | an edit keeps every petition's tier count |
| SupportTierModel.DeleteSupportTier | src/app/models/petitions.supportTiers.model.ts:96-110 | the last-tier check (403) comes before the existence check (404); on error nothing changes; on success exactly the rows matching both ids are removed |
| SupportTierModel.DeleteKeepsOneTier | src/app/models/petitions.supportTiers.model.ts:96-101 | with distinct tier ids, a petition with at least one tier keeps at least one |
| SupportTierModel.DeleteKeepsTierIds | src/app/models/petitions.supportTiers.model.ts:104-105 | deleting keeps tier ids distinct and below the counter |
| SupporterModel.Join | src/app/models/petition.supporter.model.ts:16-17 | the joined rows are exactly the views of pledges paired with their user |
| SupporterModel.SortNewestFirst | src/app/models/petition.supporter.model.ts:19 | the result is ordered newest first and is a permutation of its input |
| SupporterModel.GetSupportersForPetition | src/app/models/petition.supporter.model.ts:7-22 | ordered newest first; a permutation of the join of that petition's pledges; exactly the views of its pledges with their users; empty, not null, when the petition has no pledge |
| SupporterModel.HasSupportedTier | src/app/models/petition.supporter.model.ts:51-60 | true exactly when a pledge has that user and that tier |
| SupporterModel.AddSupport | src/app/models/petition.supporter.model.ts:31-42 | false and no change when the tier is not one of the petition's; otherwise exactly one pledge appended, with the next id and timestamp `now`, and true |
| SupporterModel.AddSupportKeepsOnePledgePerTier | src/app/models/petition.supporter.model.ts:40-41 | a pledge by a user not yet pledged at the tier keeps one pledge per user and tier |
| SupporterModel.AddSupportKeepsPledgesMatchTiers | src/app/models/petition.supporter.model.ts:34-41 | every pledge stays at a tier of the petition it names |
| UserModel.Insert | src/app/models/user.model.ts:10-16 | one row appended with the given e-mail, names and password, no image and no token, under the next id, which is returned |
| UserModel.GetByToken | src/app/models/user.model.ts:31-43 | none exactly when no user holds the token; otherwise a user holding it |
| UserModel.GetByEmail | src/app/models/user.model.ts:57-69 | none exactly when no user has the e-mail address; otherwise a user with it |
| UserModel.GetOne | src/app/models/user.model.ts:72-84 | null exactly when no row has the id; otherwise that row |
| UserModel.UpdateToken | src/app/models/user.model.ts:19-29 | the row with the id takes the token; every other row is kept |
| UserModel.DeleteToken | src/app/models/user.model.ts:45-55 | every row holding the token loses it; every other row is kept |
| UserModel.UpdateTokenThenGetByToken | src/app/models/user.model.ts:24-36 | once stored for an existing user, and held by no one else, the token finds that user |
| UserModel.DeleteTokenThenGetByToken | src/app/models/user.model.ts:45-55 | after deletion the token finds nobody |
| UserModel.BuildUserUpdate | src/app/models/user.model.ts:91-116 | one `column = ?` per provided field, each beside its own value, in the order email, first_name, last_name, password, then the user id: one more value than parts |
| UserModel.ApplyUserAssignments | src/app/models/user.model.ts:115-119 | running the built SET list on a row replaces exactly the provided fields |
| UserModel.Update | src/app/models/user.model.ts:86-122 | rejected exactly when no field is provided; otherwise the row with the id takes exactly the provided fields and every other row is kept |
| UserModel.UpdateThenGetOne | src/app/models/user.model.ts:86-122 | reading the user back gives the old row with exactly the provided fields replaced |
| PetitionImageModel.GetPetitionImageFilename | src/app/models/petitions.image.model.ts:4-19 | null when no petition has the id; for an existing petition, the stored name of a petition with that id, which may itself be null |
| PetitionImageModel.SetPetitionImageFilename | src/app/models/petitions.image.model.ts:21-33 | true exactly when a petition has the id; only that row's image name changes |
| PetitionImageModel.SetThenGetPetitionImage | src/app/models/petitions.image.model.ts:24-26 | after a successful store, a read returns the new name |
| PetitionImageModel.SetMissingPetitionImage | src/app/models/petitions.image.model.ts:24-26 | storing for a missing petition changes nothing |
| UserImageModel.GetImageFilename | src/app/models/user.image.model.ts:9-15 | null for an absent user; otherwise that user's stored name |
| UserImageModel.SetImageFilename | src/app/models/user.image.model.ts:18-31 | the first element is true exactly when the user exists; the second is the name read before the update; only that user's image name changes |
| UserImageModel.SetThenGetUserImage | src/app/models/user.image.model.ts:25-27 | after a successful store, a read returns the new name |
| UserImageModel.SetTwiceReportsPrevious | src/app/models/user.image.model.ts:23-31 | a second store reports the first store's name as the previous one |
| PetitionModel.BuildClauses | src/app/models/petition.model.ts:14-33 | the appended conditions are exactly the clauses of the truthy arguments, in order |
| PetitionModel.ClausesMeanFilter | src/app/models/petition.model.ts:14-33 | a row satisfies the appended conditions exactly when it matches every truthy argument: `q` a substring of the title or the description, category in the list, cost at most the bound, exact owner, pledged by the supporter |
| PetitionModel.FilterPetitions | src/app/models/petition.model.ts:10-33 | the selected rows are exactly the petitions matching the filter |
| PetitionModel.FalsyFilterKeepsAll | src/app/models/petition.model.ts:14-30 | with `''`, null and 0 in every argument, every petition is kept |
| PetitionModel.Page | src/app/models/petition.model.ts:41-42 | `LIMIT startIndex, count`: the rows from the offset, at most `count` of them, unbounded for a null count |
| PetitionModel.GetPetitions | src/app/models/petition.model.ts:4-49 | every row returned is a petition matching the filter; empty from an offset at or past the number of matching rows, otherwise exactly `min(count, matching - startIndex)` rows, all of them for a null count; row i is matching row startIndex + i |
| PetitionModel.TotalIsUnpaginatedPage | src/app/models/petition.model.ts:51-87 | the count query counts exactly the rows of the unpaginated page query: both use one filter |
| PetitionModel.PageWithinTotal | src/app/models/petition.model.ts:41-42 | a page never holds more rows than the total |
| PetitionModel.TotalCountsMatchingPetitions | src/app/models/petition.model.ts:57-86 | with distinct ids, the total is the number of petitions matching the filter |
| PetitionModel.EmptyPageBesidePositiveTotal | src/app/models/petition.model.ts:41-42 | an offset at the total, or a count of 0, gives an empty page |
| PetitionModel.IsOwner | src/app/controllers/petition.support_tier.controller.ts:38-42 | true exactly when a petition has this id and this owner |
| PetitionModel.PetitionExists | src/app/controllers/petition.supporter.controller.ts:19-23 | true exactly when a petition has the id: the test the intended "No petition found" answer needs |
| Db.Database.AddSupportTier | src/app/models/petitions.supportTiers.model.ts:4-35 | the error, the tiers and the counter are those of `SupportTierModel.AddSupportTier`; no other table changes; keys stay valid |
| Db.Database.EditSupportTier | src/app/models/petitions.supportTiers.model.ts:37-81 | the error and the tiers are those of `SupportTierModel.EditSupportTier`; only the tier table changes |
| Db.Database.DeleteSupportTier | src/app/models/petitions.supportTiers.model.ts:93-117 | the error, the status and the tiers are those of `SupportTierModel.DeleteSupportTier`; only the tier table changes |
| Db.Database.AddSupport | src/app/models/petition.supporter.model.ts:31-49 | result, pledges and counter as `SupporterModel.AddSupport`; only the pledge table changes |
| Db.Database.InsertUser | src/app/models/user.model.ts:5-17 | as `UserModel.Insert`; only the user table and its counter change |
| Db.Database.UpdateToken | src/app/models/user.model.ts:19-29 | as `UserModel.UpdateToken`; only the user table changes |
| Db.Database.DeleteToken | src/app/models/user.model.ts:45-55 | as `UserModel.DeleteToken`; only the user table changes |
| Db.Database.UpdateUser | src/app/models/user.model.ts:86-122 | false and no change when no field is provided; otherwise the users are those of `UserModel.Update` |
| Db.Database.SetPetitionImageFilename | src/app/models/petitions.image.model.ts:21-33 | as `PetitionImageModel.SetPetitionImageFilename`; only the petition table changes |
| Db.Database.SetUserImageFilename | src/app/models/user.image.model.ts:18-32 | as `UserImageModel.SetImageFilename`; only the user table changes |
| Db.Database.GetPetitions | src/app/models/petition.model.ts:4-49 | the clauses built by pushes, then selection and slicing, give `PetitionModel.GetPetitions` |
| Db.Database.GetTotalPetitions | src/app/models/petition.model.ts:51-87 | the same clauses, counted, give `PetitionModel.GetTotalPetitions` |
| SupportTierController.AddSupportTierResponse | src/app/controllers/petition.support_tier.controller.ts:10-61 | 400 for a bad id; 401 when the token identifies nobody; 400 for a failed schema; 403 for a non-owner; 403 when the petition already has 3 tiers or the title is taken; 201 exactly when all checks pass; otherwise nothing changes; on 201 one tier is appended under the next id |
| SupportTierController.AddSupportTierPrecedence | src/app/controllers/petition.support_tier.controller.ts:30-42 | add looks at the body before ownership: a non-owner gets 400 with an invalid body and 403 with a valid one |
| SupportTierController.AddSupportTierKeepsInvariants | src/app/controllers/petition.support_tier.controller.ts:44-56 | valid keys, at most 3 tiers and unique titles per petition are preserved |
| SupportTierController.EditSupportTierAsWritten | src/app/controllers/petition.support_tier.controller.ts:63-117 | the chain as written: 400 for a bad id, 401, 403 for a non-owner, 400 for a failed schema, 403 for a pledged tier, 403 when no field is provided; 200 exactly when all pass, with no check that the tier belongs to the petition; on 200 the tier is edited by id alone |
| SupportTierController.EditAsWrittenChangesAnotherPetitionsTier | src/app/controllers/petition.support_tier.controller.ts:84-105 | the owner of one petition renames another petition's tier through their own petition's path and gets 200 |
| SupportTierController.EditSupportTierResponse | src/app/controllers/petition.support_tier.controller.ts:63-117 | the same chain, with 404 when the tier is not one of the petition in the path (checked after the pledge check, before the empty-patch 403); 200 exactly when every check passes and a field is provided; otherwise nothing changes; on 200 the tier is patched |
| SupportTierController.EditSupportTierPrecedence | src/app/controllers/petition.support_tier.controller.ts:84-103 | edit checks ownership before the body, the reverse of add: a non-owner with an invalid body gets 403, in both versions |
| SupportTierController.EditChangesOnlyThatTier | src/app/controllers/petition.support_tier.controller.ts:105-112 | with distinct tier ids, a 200 edit changes only the named tier of the petition in the path |
| SupportTierController.EditSupportTierKeepsInvariants | src/app/controllers/petition.support_tier.controller.ts:105-112 | valid keys, at most 3 tiers and every pledge's tier are preserved |
| SupportTierController.DeleteSupportTierResponse | src/app/controllers/petition.support_tier.controller.ts:119-163 | 400 for a bad id; 401; 403 for a non-owner; 403 for a pledged tier; 403 when the petition has at most one tier; 404 when the tier is not one of the petition; 200 exactly when all pass; otherwise nothing changes; on 200 exactly the rows matching both ids are removed |
| SupportTierController.DeleteSupportTierPrecedence | src/app/controllers/petition.support_tier.controller.ts:146-158 | the last-tier 403 comes before the missing-tier 404; a present tier of a petition with several is removed with 200 |
| SupportTierController.DeleteSupportTierKeepsInvariants | src/app/controllers/petition.support_tier.controller.ts:146-158 | valid keys, at most 3 tiers, at least 1 tier once present, and every pledge's tier are preserved |
| SupportTierController.AddSupportTier | src/app/controllers/petition.support_tier.controller.ts:10-61 | the handler's status and tables are those of `AddSupportTierResponse`; keys stay valid |
| SupportTierController.EditSupportTier | src/app/controllers/petition.support_tier.controller.ts:63-117 | the handler answers and updates as the corrected `EditSupportTierResponse`, not as the code as written |
| SupportTierController.DeleteSupportTier | src/app/controllers/petition.support_tier.controller.ts:119-163 | the handler's status and tables are those of `DeleteSupportTierResponse` |
| SupporterController.GetAllSupportersAsWritten | src/app/controllers/petition.supporter.controller.ts:11-30 | 400 exactly for a bad id; never 404; otherwise 200 with the model's list |
| SupporterController.MissingPetitionListedAsEmpty | src/app/controllers/petition.supporter.controller.ts:19-23 | an id naming no petition and no pledge gets 200 with an empty list |
| SupporterController.GetAllSupportersResponse | src/app/controllers/petition.supporter.controller.ts:11-30 | 400 for a bad id; 404 exactly for an id naming no petition; otherwise 200 with the petition's supporters, newest first |
| SupporterController.ListingsAgreeOnExistingPetitions | src/app/controllers/petition.supporter.controller.ts:19-25 | for an existing petition, the corrected listing sends exactly what the handler as written sends |
| SupporterController.GetAllSupporters | src/app/controllers/petition.supporter.controller.ts:11-30 | the handler answers as the corrected `GetAllSupportersResponse`, not as the code as written |
| SupporterController.AddSupporterResponse | src/app/controllers/petition.supporter.controller.ts:32-84 | 400 for a bad id; 401; 403 when the owner supports their own petition; 400 for a failed schema; 403 when the user already pledged at the tier; 404 when the tier is not one of the petition; 201 exactly when all pass; otherwise nothing changes; on 201 exactly one pledge is appended |
| SupporterController.AddSupporterPrecedence | src/app/controllers/petition.supporter.controller.ts:52-70 | the owner is refused before the body is looked at; a repeated pledge is refused before the tier is looked up, so it gets 403 even for a tier outside the petition |
| SupporterController.AddSupporterTwiceRefused | src/app/controllers/petition.supporter.controller.ts:66-70 | the same pledge a second time gets 403 and changes nothing |
| SupporterController.OtherTierStillAllowed | src/app/controllers/petition.supporter.controller.ts:66-79 | a pledge at one tier does not block the same user from another tier of the petition |
| SupporterController.AddSupporterKeepsInvariants | src/app/controllers/petition.supporter.controller.ts:66-79 | valid keys, one pledge per user and tier, and pledges at tiers of their petitions are preserved |
| SupporterController.AddSupporter | src/app/controllers/petition.supporter.controller.ts:32-84 | the handler's status and tables are those of `AddSupporterResponse` |
| PetitionController.ListingArguments | src/app/controllers/petition.controller.ts:20-31 | a falsy start index is 0, count passes through (null for none), a falsy `q` is `''`, a falsy cost is 0; given values pass through; a single category becomes a one-element list, a repeated one its list, an absent one null; ownerId and supporterId pass through; a falsy sortBy is `CREATED_ASC` |
| PetitionController.AbsentParametersTakeDefaults | src/app/controllers/petition.controller.ts:20-31 | with no parameter the arguments are the documented defaults |
| PetitionController.GetAllPetitionsResponse | src/app/controllers/petition.controller.ts:9-51 | 400 exactly when the body fails validation; 404 exactly when the start index is at or past the total or the count is 0; on 200 the page and count are the model's page and total, the rows match the filter and number at most the count and the total |
| PetitionController.ListingCountIsMatchingPetitions | src/app/controllers/petition.controller.ts:44 | the `count` sent is the number of matching petitions, not the page length |
| PetitionController.AbsentParametersListEverything | src/app/controllers/petition.controller.ts:20-44 | with no parameter and some petition, every petition is listed with the full count |
| PetitionController.PastTheEndIsNotFound | src/app/controllers/petition.controller.ts:38-42 | a start index at the total gives 404 although petitions match |
| PetitionController.GetAllPetitions | src/app/controllers/petition.controller.ts:9-51 | the handler's answer is `GetAllPetitionsResponse` |
| PetitionImageController.GetImageResponse | src/app/controllers/petition.image.controller.ts:14-57 | 400 exactly for a bad id; 200 exactly when the stored name is truthy and the file exists, with an accepted type, png exactly for a lower-cased `.png` |
| PetitionImageController.SetImageResponse | src/app/controllers/petition.image.controller.ts:59-120 | 400 for a bad id; 401; 403 for a non-owner; 400 for a refused content type; accepted uploads store `<id>_<now>.<subtype>` and get 200 when an image existed, 201 otherwise; the 500 branch is unreachable because ownership implies the row exists |
| PetitionImageController.SetThenGetImage | src/app/controllers/petition.image.controller.ts:32-98 | after an accepted upload, a read with the file present gives 200 with the uploaded content type |
| PetitionImageController.StoringKeepsOwner | src/app/controllers/petition.image.controller.ts:98 | storing a name keeps the petition's owner |
| PetitionImageController.SecondUploadReplaces | src/app/controllers/petition.image.controller.ts:97-107 | a second accepted upload by the owner gets 200 |
| PetitionImageController.GetImage | src/app/controllers/petition.image.controller.ts:14-57 | the handler's answer is `GetImageResponse` |
| PetitionImageController.SetImage | src/app/controllers/petition.image.controller.ts:59-120 | the handler's status and tables are those of `SetImageResponse` |
| UserImageController.GetImageResponse | src/app/controllers/user.image.controller.ts:7-46 | 200 exactly when the stored name is truthy and the file exists, else 404; png exactly for a case-sensitive `.png` |
| UserImageController.UpperCaseExtension | src/app/controllers/user.image.controller.ts:20-30 | a file `1_5.PNG` is served as JPEG for a user and as PNG for a petition |
| UserImageController.SetImageAsWritten | src/app/controllers/user.image.controller.ts:48-80 | 400 exactly for a missing body or a refused type, with no change; otherwise the new name is stored and the answer is 200, never 201 |
| UserImageController.FirstUploadAnswered200 | src/app/controllers/user.image.controller.ts:69-75 | a user with no image who uploads one gets 200 |
| UserImageController.SetImageResponse | src/app/controllers/user.image.controller.ts:48-80 | 400 as written; otherwise the new name is stored, with 200 exactly when the user already had an image and 201 otherwise |
| UserImageController.AsWrittenDiffersOnlyInStatus | src/app/controllers/user.image.controller.ts:69-75 | both versions store the same name; where the intended answer is 201 the written one answers 200 |
| UserImageController.SetThenGetImage | src/app/controllers/user.image.controller.ts:7-61 | after an upload for an existing user, a read with the file present gives 200 with the uploaded type |
| UserImageController.SecondUploadAnswered200 | src/app/controllers/user.image.controller.ts:69-75 | a second upload for an existing user gets 200 |
| UserImageController.DeleteImageResponse | src/app/controllers/user.image.controller.ts:82-94 | 501 and no change |
| UserImageController.GetImage | src/app/controllers/user.image.controller.ts:7-46 | the handler's answer is `GetImageResponse` |
| UserImageController.SetImage | src/app/controllers/user.image.controller.ts:48-80 | the handler's status and tables are those of the corrected `SetImageResponse` |

## Left out

- Exceptions are not modelled; the tables are in memory and cannot fail. This covers every `catch` that answers 500, and the `catch` in `editSupportTier` and `deleteSupportTier` that returns an "Internal Server Error" error.
- SQL text is not modelled; statements are modelled by their effect on the tables. The `ORDER BY` splice of `sortBy` is not modelled.
- PetitionModel.GetPetitions: keeps table order, so it does not say how rows are sorted.
- A `LIMIT` with a null count is treated as unbounded.
- An empty `categoryIds` list (`IN ()`) is modelled as matching no row rather than as a statement error.
- `LIKE` is modelled as substring containment. It leaves out collation and case folding, and `%` or `_` inside `q`.
- `parseInt` and `Number` are not modelled. Ids and numeric parameters arrive already parsed, as an optional integer or natural number; NaN, floats and negative offsets are not modelled.
- The user image handlers take the user id as an integer, so a NaN id is not modelled.
- Schema validation (`validator.ts`) is a boolean input.
- The file system is not modelled: writing, reading, checking and deleting image files, and `sendFile`. Whether the file exists is a boolean input. This also leaves out that the two user image handlers join different storage directories.
- The clock is an input: `Date.now()` in file names and `CURRENT_TIMESTAMP` in pledges.
- `checkPetitionOwner` is called by the handlers but is not defined in `petition.model.ts`. That function is not part of this model; `PetitionModel.IsOwner` stands in for it as "a petition with this id has this owner".
- `user.controller.ts` is not part of this model: `register` calls a foreign hash function, and its other handlers are stubs. So are petition create, edit and delete, and categories.
- E-mail and title uniqueness across users and petitions are not modelled: they are database constraints the core does not check.
- Tier title uniqueness is proved for add only. Editing a tier can repeat a title within its petition, just as the source allows.
- Interleaving of concurrent requests is not modelled: for example, the non-transactional count-then-insert in `addSupportTier`.
- Response messages and bodies other than status, listed rows, count and content type are not modelled.

## Findings

| source | as written | input that shows it | evidently intended | confidence | as-written member | corrected member |
|---|---|---|---|---|---|---|
| src/app/controllers/user.image.controller.ts:69-75 | `if (wasImageSet)` tests the two-element array that `setImageFilename` returns, and an array is always truthy | a user with no image uploads a PNG and is answered 200 "updated" | 201 for a first image, 200 when one is replaced; the corrected version, like the code, has no branch for a user id naming no row, so it answers such a request 201 and nothing is stored | high; not executed | UserImageController.SetImageAsWritten, UserImageController.FirstUploadAnswered200 | UserImageController.SetImageResponse |
| src/app/controllers/petition.supporter.controller.ts:19-23 | `if (!supporters)` tests an array, which is never falsy | GET the supporters of petition 99 when no petition 99 exists: 200 with `[]` | 404 "No petition found with this ID." | high; not executed | SupporterController.GetAllSupportersAsWritten, SupporterController.MissingPetitionListedAsEmpty | SupporterController.GetAllSupportersResponse |
| src/app/controllers/petition.support_tier.controller.ts:84-105 | ownership is checked for the petition in the path, but the edit runs `UPDATE ... WHERE id = ?` on the tier id alone | user 1 owns petition 1, and tier 5 belongs to petition 2: PATCH petition 1, tier 5 answers 200 and renames tier 5 | edit only a tier of the petition in the path, as delete does with `WHERE id = ? AND petition_id = ?`; answer 404 otherwise | medium; not executed | SupportTierController.EditSupportTierAsWritten, SupportTierController.EditAsWrittenChangesAnotherPetitionsTier | SupportTierController.EditSupportTierResponse |
