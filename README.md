# Story backend core, modelled in Dafny

This project models the decision logic of a small Express/Mongoose backend for
branching "choose your own adventure" stories:

- the **story document** (`StoryModel`): its schema defaults down to chapters,
  scenes and choices, the validators that saving runs, and the instance methods
  `isPublished`, `isLikedBy`, `addLike` and `removeLike`, which treat the `likes`
  list as a set of user ids. `Story` is a class whose `likes` field the methods
  update in place;
- the **user document** (`UserModel`): the `trim`/`lowercase` setters, the defaults
  and the `required`/`minlength`/`maxlength` validators, as a constructor function
  and a validity predicate;
- the **bearer-token gate** `auth` (`AuthMiddleware`): parsing the `Authorization`
  header, the three 401 refusals in their order, and attaching the user found
  (without its password) to `req.user` before calling `next`. `jwt.verify` and
  `User.findById` are oracles passed in as functions;
- the **registration and login rules** with `handleValidationErrors`
  (`ValidationMiddleware`): the username and password predicates and the 400
  error built from the collected messages. `isEmail` is an oracle;
- **error responses** (`Errors`): `CustomError`, `unkownEndpoint` and
  `errorHandler`, which picks the status, the message and whether the stack trace
  is shown.

`Base` holds the option type and `ObjectId`; `Text` holds the JavaScript string
operations the above rely on (white-space trimming, lower-casing, `startsWith`,
`split` and `join`) with their own characterising lemmas.

Three facts about the code shape the model:

- the error body that `errorHandler` sends is `{ message, stack }` and nothing else;
- `createStory` saves a story whose `author` comes from the request body, and
  does not add the story to any user's `stories` list;
- choice targets are a pair of ObjectIds, stored as given and never resolved.

Values the runtime supplies are parameters: the stack text of a thrown error
(`trace`), `process.env.NODE_ENV` (`nodeEnv`) and the response status on entry to
the error handler (`responseStatus`).

## Model

| member | source | states |
|---|---|---|
| `Text.Trim` | backend/src/models/userModel.ts:23 | the trimmed text neither starts nor ends with JavaScript white space and is no longer than the input |
| `Text.TrimOf` | backend/src/models/userModel.ts:23 | trimming white space + a trimmed text + white space gives exactly that text (trim is fully characterised) |
| `Text.TrimIdempotent` | backend/src/utils/validationMiddleware.ts:19 | trimming twice is trimming once |
| `Text.LowerCase` | backend/src/models/userModel.ts:31 | each character is mapped on its own: an upper-case ASCII letter becomes its lower-case partner (code + 32), every other character stays; so no upper-case ASCII letter is left and white space stays where it was |
| `Text.LowerCaseFixes` | backend/src/models/userModel.ts:31 | lower-casing leaves a text unchanged exactly when it holds no upper-case ASCII letter |
| `Text.LowerCaseIdempotent` | backend/src/models/userModel.ts:31 | lower-casing twice is lower-casing once |
| `Text.Split` | backend/src/utils/authMiddleware.ts:22 | at least one piece, no piece contains the separator, exactly one piece iff the text has no separator |
| `Text.JoinSplit` | backend/src/utils/authMiddleware.ts:22 | joining the pieces of a split with the separator gives back the text |
| `Text.SplitAfterFirst` | backend/src/utils/authMiddleware.ts:22 | the first piece is the text before the first separator, the rest are the pieces of what follows |
| `Text.JoinAt` | backend/src/utils/validationMiddleware.ts:10 | each part appears in the joined text, in order, at the offset after the earlier parts and their separators |
| `Text.JoinSeparatorAt` | backend/src/utils/validationMiddleware.ts:10 | between each part and the next in the joined text stands exactly the separator |
| `Text.JoinLength` | backend/src/utils/validationMiddleware.ts:10 | the joined text ends right after its last part |
| `Errors.HandleError` | backend/src/utils/errorHandler.ts:14-24 | status is the error's non-zero code, else a response status other than 200, else 500, so it is 200 only if the error asks for 200; message is the error's own when non-empty, else the default, never empty; stack is null exactly in production, otherwise the error's trace |
| `Errors.UnknownEndpoint` | backend/src/utils/errorHandler.ts:7-11 | forwards an error with status code 404 and message "Not Found - " followed by the URL |
| `Errors.UnknownEndpointAnswers404` | backend/src/utils/errorHandler.ts:7-17 | whatever the response status, the handler answers an unknown endpoint with 404 and that message |
| `Errors.CustomErrorAnswersWithItsCode` | backend/src/utils/CustomError.ts:6-8 | a CustomError with a non-zero code and a message is answered with that code and that message |
| `Errors.CustomErrorZeroFallsBack` | backend/src/utils/errorHandler.ts:16 | a CustomError with code 0 is falsy there: the response status, or 500 if it is 200 |
| `UserModel.NewUser` | backend/src/models/userModel.ts:18-62 | username stored as the trimmed input; email stored as the lower-cased trimmed input, so it has no upper-case letter and no surrounding white space; password as given; admin, profile image, bio and both story lists as given, or false, 'defaultImage.png', 'All about me....' and empty when left out |
| `UserModel.NewUserRoundTrip` | backend/src/models/userModel.ts:18-62 | the setters are idempotent and the defaults only fill gaps: building a user from a stored one gives it back unchanged |
| `UserModel.LowerCaseKeepsTrimmed` | backend/src/models/userModel.ts:26-32 | lower-casing a trimmed text leaves it trimmed |
| `UserModel.CheckText` | backend/src/models/userModel.ts:19-50 | a string path passes iff it is present and non-empty when required, and within its minimum and maximum length when present |
| `UserModel.ValidIff` | backend/src/models/userModel.ts:19-50 | a document is valid iff username present with at least 3 characters, email present and non-empty, password present with at least 6, bio at most 500 |
| `UserModel.NewUserValidIff` | backend/src/models/userModel.ts:19-50 | a user built from input is valid iff the trimmed username has at least 3 characters, the trimmed email is not blank, the password has at least 6 and a given bio at most 500 |
| `UserModel.RegisteredUserDefaults` | backend/src/models/userModel.ts:38-62 | a user built from username, email and password alone takes every default, and its validity depends only on those three |
| `StoryModel.Liked` | backend/src/models/StoryModel.ts:143-146 | the scan is true exactly when some id in the list equals the user id |
| `StoryModel.Filter` | backend/src/models/StoryModel.ts:138 | the filtered list does not contain the id, holds only ids of the original and is no longer |
| `StoryModel.FilterCounts` | backend/src/models/StoryModel.ts:138 | filtering removes every copy of the id and keeps every other id's number of occurrences |
| `StoryModel.FilterConcat` | backend/src/models/StoryModel.ts:138 | filtering distributes over concatenation, so the remaining ids keep their relative order |
| `StoryModel.FilterAbsent` | backend/src/models/StoryModel.ts:138 | filtering out an absent id changes nothing |
| `StoryModel.FilterNoDuplicates` | backend/src/models/StoryModel.ts:138 | filtering keeps a duplicate-free list duplicate-free |
| `StoryModel.WithLikeLiked` | backend/src/models/StoryModel.ts:127-131 | after addLike(u) the story is liked by u |
| `StoryModel.WithLikeShape` | backend/src/models/StoryModel.ts:128-130 | a present id leaves the likes unchanged; an absent one is appended at the end with all earlier entries unchanged |
| `StoryModel.WithLikeIdempotent` | backend/src/models/StoryModel.ts:128 | liking twice is liking once |
| `StoryModel.WithLikeNoDuplicates` | backend/src/models/StoryModel.ts:128 | addLike keeps a duplicate-free list duplicate-free |
| `StoryModel.WithoutLikeFilters` | backend/src/models/StoryModel.ts:135-140 | after removeLike(u) the likes are exactly the others in order, u is not liked, every other id keeps its count |
| `StoryModel.WithoutLikeAbsent` | backend/src/models/StoryModel.ts:136 | removeLike of an id that has not liked the story changes nothing |
| `StoryModel.WithoutLikeNoDuplicates` | backend/src/models/StoryModel.ts:135-140 | removeLike keeps a duplicate-free list duplicate-free |
| `StoryModel.AddThenRemoveRestores` | backend/src/models/StoryModel.ts:127-140 | for an id not in the likes, addLike then removeLike restores the original list |
| `StoryModel.NewChoiceValidIff` | backend/src/models/StoryModel.ts:90-105 | a choice built from input is valid iff a given text is non-empty and both targets are given |
| `StoryModel.NewSceneValidIff` | backend/src/models/StoryModel.ts:72-107 | a scene built from input is valid iff a given title is non-empty and every given choice is valid |
| `StoryModel.NewChapterValidIff` | backend/src/models/StoryModel.ts:69-110 | a chapter built from input is valid iff every given scene is |
| `StoryModel.NewChapters` | backend/src/models/StoryModel.ts:69-110 | one stored chapter per given chapter, in order, each built by NewChapter |
| `StoryModel.NewChoice` | backend/src/models/StoryModel.ts:90-105 | a choice keeps a given text or takes 'Choice'; both targets are stored as given |
| `StoryModel.NewScene` | backend/src/models/StoryModel.ts:72-107 | a scene keeps each given title, image, description and prompt, or takes 'Scene 1', '_defaultScene.png', 'Please enter a description....', 'Please enter a prompt....'; its choices are the given ones built one by one, or none |
| `StoryModel.NewChapter` | backend/src/models/StoryModel.ts:69-109 | a chapter's scenes are the given ones built one by one, or none |
| `StoryModel.EmptySubdocumentDefaults` | backend/src/models/StoryModel.ts:69-110 | a choice, scene or chapter given with no fields is exactly the all-defaults subdocument |
| `StoryModel.SceneRoundTrip` | backend/src/models/StoryModel.ts:72-107 | building a scene from a stored one gives it back: the defaults never override a given value |
| `StoryModel.ChapterRoundTrip` | backend/src/models/StoryModel.ts:69-109 | building a chapter from a stored one gives it back, scene by scene and choice by choice |
| `StoryModel.NewChaptersIdempotent` | backend/src/models/StoryModel.ts:69-110 | applying the nested defaults to already stored chapters changes nothing |
| `StoryModel.Story.constructor` | backend/src/models/StoryModel.ts:43-124 | title and synopsis trimmed or defaulted, likes and chapters empty and publish false when left out; a story built from its author alone has 'Once Upon a Time....', 'Our story begins in ....', no likes, no chapters, is not published and is valid iff the author is given |
| `StoryModel.Story.IsLikedBy` | backend/src/models/StoryModel.ts:143-146 | true exactly when the user id is in the likes |
| `StoryModel.Story.IsPublished` | backend/src/models/StoryModel.ts:122-124 | true exactly when the publish flag is set; the constructor makes a story built without `publish` unpublished, and AddLike/RemoveLike cannot change it (they modify only `likes`) |
| `StoryModel.Story.AddLike` | backend/src/models/StoryModel.ts:127-132 | the new likes are the old ones with u appended unless present; afterwards u likes the story; no duplicate is created; only `likes` changes |
| `StoryModel.Story.RemoveLike` | backend/src/models/StoryModel.ts:135-140 | the new likes are the old ones without u, in order; afterwards u does not like the story; no duplicate is created; only `likes` changes |
| `StoryModel.LikeThenUnlike` | backend/src/models/StoryModel.ts:127-140 | on a story object, liking then unliking by a user who had not liked it restores its likes |
| `AuthMiddleware.ExtractToken` | backend/src/utils/authMiddleware.ts:22 | there is a token iff the header has a space, and the token never contains one |
| `AuthMiddleware.TokenAfterFirstSpace` | backend/src/utils/authMiddleware.ts:22 | the token is the text between the first and the second space |
| `AuthMiddleware.BearerTokenIsVerified` | backend/src/utils/authMiddleware.ts:20-28 | for "Bearer <token>" the gate passes the header test and the verifier sees exactly that token |
| `AuthMiddleware.WithoutPassword` | backend/src/utils/authMiddleware.ts:35 | the attached user is the found one with no password |
| `AuthMiddleware.Authenticate` | backend/src/utils/authMiddleware.ts:16-50 | an attached user has no password; every failure of the gate's own is 401 with one of its three messages; a rejected lookup is handed on unchanged |
| `AuthMiddleware.NoBearerRejected` | backend/src/utils/authMiddleware.ts:47-49 | without a "Bearer" header: 401 'Not authorised, no token provided', the same whatever the verifier and the lookup would answer |
| `AuthMiddleware.BareBearerRejected` | backend/src/utils/authMiddleware.ts:22-31 | the header "Bearer" yields no token and fails with 401 'Invalid token' |
| `AuthMiddleware.EmptyBearerRejected` | backend/src/utils/authMiddleware.ts:22-31 | the header "Bearer " yields the empty token and fails with 401 'Invalid token' |
| `AuthMiddleware.InvalidTokenRejected` | backend/src/utils/authMiddleware.ts:26-32 | a token that fails verification gives 401 'Invalid token', the same whatever the lookup would answer |
| `AuthMiddleware.UnknownUserRejected` | backend/src/utils/authMiddleware.ts:35-40 | a verified token whose id finds no user gives 401 'Not authorised, user not found' |
| `AuthMiddleware.AttachIff` | backend/src/utils/authMiddleware.ts:35-45 | the request goes on iff the header, the token and the lookup all succeed, and the user attached is the one found, without its password |
| `AuthMiddleware.RefusalAnswers401` | backend/src/utils/authMiddleware.ts:31-48 | every refusal of the gate is answered by the error handler with 401 and one of the three messages |
| `AuthMiddleware.Auth` | backend/src/utils/authMiddleware.ts:16-50 | next is called once: plain after req.user is set to the found user on success, with the error otherwise, req.user then left as it was |
| `ValidationMiddleware.CountedLength` | backend/src/utils/validationMiddleware.ts:20 | the length isLength measures is at most the number of characters, and equal to it without variation selectors |
| `ValidationMiddleware.UsernameRulesIff` | backend/src/utils/validationMiddleware.ts:20-23 | the two username validators both pass iff the text has 3 to 20 characters, all ASCII letters or digits |
| `ValidationMiddleware.UsernameAcceptedIff` | backend/src/utils/validationMiddleware.ts:18-23 | a username is accepted iff, trimmed, it is 3 to 20 characters of ASCII letters and digits |
| `ValidationMiddleware.RegisterPasswordAcceptedIff` | backend/src/utils/validationMiddleware.ts:29-35 | a registration password is accepted iff it counts at least 8 characters untrimmed and has an upper-case letter and a digit; an accepted one has at least 8 characters |
| `ValidationMiddleware.VariationSelectorNotCounted` | backend/src/utils/validationMiddleware.ts:29-31 | an 8-character password ending in U+FE0F counts 7 and fails only the length rule |
| `ValidationMiddleware.LoginPasswordAcceptedIff` | backend/src/utils/validationMiddleware.ts:47-49 | a login password is accepted iff it is non-empty |
| `ValidationMiddleware.ValidateRegisterIff` | backend/src/utils/validationMiddleware.ts:17-37 | registration goes on iff username, email and password each pass their rules |
| `ValidationMiddleware.ValidateLoginIff` | backend/src/utils/validationMiddleware.ts:41-51 | login goes on iff the trimmed email is an email and the password is non-empty |
| `ValidationMiddleware.HandleValidationErrors` | backend/src/utils/validationMiddleware.ts:7-14 | next() iff there are no messages; otherwise an error with status 400 whose message starts "Validation failed: " (its full text: FailureListsEveryMessage and FailureSeparatorsAndEnd) |
| `ValidationMiddleware.FailureListsEveryMessage` | backend/src/utils/validationMiddleware.ts:9-11 | every message appears in the error message, in order, after the prefix, the earlier messages and a ", " after each |
| `ValidationMiddleware.FailureSeparatorsAndEnd` | backend/src/utils/validationMiddleware.ts:10-11 | exactly ", " stands between each message and the next, and the error's text ends with the last message; with FailureListsEveryMessage this fixes the whole text |
| `ValidationMiddleware.SingleFailure` | backend/src/utils/validationMiddleware.ts:10-11 | one message gives exactly "Validation failed: " followed by it |
| `ValidationMiddleware.FailureAnswers400` | backend/src/utils/validationMiddleware.ts:11 | a validation failure is answered by the error handler with 400 |

## Left out

- Token issuing and verification (`generateToken`, `jwt.verify`): signatures and clock-based expiry are cryptography and time, so verification is an oracle. The only library behaviour modelled is that a missing or empty token is refused before verification. The load-time `JWT_SECRET`/`JWT_EXPIRE` checks are process configuration.
- `User.findById(...).select('-password')` is an oracle that finds a user, finds none, or rejects (a cast or database error, handed on to the error handler unchanged).
- `isEmail` is an oracle. `normalizeEmail`, and the sanitised values the chains write back into the request body, are not modelled: only the list of messages is.
- Request fields that are not strings are not modelled: a missing field reads as the empty string, and arrays are not validated element by element. Mongoose `null` field values are not modelled either.
- Text.LowerCase: lower-cases ASCII letters only; JavaScript's `toLowerCase` also maps non-ASCII letters.
- UserModel.NewUser: the stored email is free of ASCII upper-case letters only, because of the ASCII-only lower-casing above.
- String lengths are counted in Unicode scalar values. Mongoose's `minlength`/`maxlength` count UTF-16 code units, so a character outside the Basic Multilingual Plane counts 2 there and 1 here.
- Errors.CustomErrorAnswersWithItsCode: requires a non-zero code, because code 0 is falsy in the handler; that case is stated by `Errors.CustomErrorZeroFallsBack`.
- `NaN` status codes, and Express's own checks on the status passed to `res.status`, are not modelled.
- Uniqueness of username and email (database indexes), the `createdAt`/`updatedAt` timestamps, and the `_id` of each subdocument are assigned by the store.
- Choice targets are never resolved or checked against the story's chapters and scenes, so graph well-formedness is not modelled.
- The controllers (`userController.ts`, `storyController.ts`) are database and bcrypt calls, as are the route tables, app setup, Swagger documentation and the frontend. In `storyController.ts`, the `updateStory` 404 check tests the function rather than the result; that is outside this model.
- The validation chains are not mounted on any route in `userRoutes.ts`. `app.ts` imports `unknownEndpoint`, while `errorHandler.ts` exports `unkownEndpoint`. Both are wiring outside this model.
- Asynchronous sequencing: `auth` runs through `express-async-handler`, so a rejection reaches `next(err)`. The model returns that single call to `next` as a value.
