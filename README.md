# A verified model of the blog's request core

The blog is an Express/Mongoose server with a React client. This project models the parts of it that make decisions:

- **Posts.** How the post handlers list, read, create, update, delete and like posts, over an in-memory collection: a map from id to document.
- **The Post schema.** Its defaults, its string setters, its validators and the pre-save hook that derives an excerpt from the content.
- **Authentication.** The three authentication middlewares (`auth`, `softAuth`, `adminAuth`), the express-validator rules, and the middleware chain each route runs.
- **Accounts.** register, login and getProfile over a users collection.
- **The client.** The admin page's table and editor, and the home feed's paging state.

The pieces fit together end to end. A request is run through its route's chain (`PostRoutes`, `AuthRoutes`), and only what gets past the chain reaches the handler. The feed model is run against `getPosts` (`HomePage.FeedShowsListing`). Paging through an unchanged collection ends with every post the caller may see, each exactly once, newest first.

Files, one module each. Modules import one another; none is nested.

| file | models |
|---|---|
| JsBuiltins.dfy | The JavaScript string and number primitives the code relies on: `trim`, `toLowerCase`, `split`, `join`, `replace` (first occurrence), `parseInt`, `Math.ceil` of a quotient, and `||` on strings |
| Http.dfy | Status codes, the response messages, the request body, the reply shapes, and the `req` object |
| Identity.dfy | Users and accounts, `findById` |
| PostSchema.dfy | server/models/Post.js |
| PostController.dfy | server/controllers/postController.js |
| AuthMiddleware.dfy | server/middleware/auth.js |
| Validation.dfy | The `body(...)` validation chains, and `validationResult` |
| Pipeline.dfy | How Express runs a chain of middleware |
| PostRoutes.dfy | server/routes/posts.js |
| AuthController.dfy | server/controllers/authController.js |
| AuthRoutes.dfy | server/routes/auth.js |
| AdminPage.dfy | client/src/pages/Admin.js |
| HomePage.dfy | client/src/pages/Home.js |

The following are parameters of the model:

- **Token verification.** `jwt.verify` is a function from the token to an optional user id.
- **Token signing.** `jwt.sign` is a function from the user id to a string.
- **Password check.** bcrypt's comparison is a predicate.
- **E-mail check.** validator.js's `isEmail` is a predicate.
- **Creation time.** The clock is the `now` argument.
- **Client responses.** On the client, each HTTP response is an argument, with `None` for a failed request.

Where the code and its specification disagree, the model follows the code:

- **`adminAuth` with no user.** `adminAuth` reads `req.user.role` without a guard. When no user was set, this throws, and Express answers 500, not 403. On every route in the table `auth` runs first, so this case never arises there (`PostRoutes.AdminChains`).
- **The default of published.** The schema defaults `published` to true, but createPost passes `published: published || false` (server/controllers/postController.js:77), so a post created without the flag is a draft. The model follows the controller (`PostController.CreateFields`, `PostController.CreatedDefaults`, `AdminPage.EditorPublishedFlag`).
- **An empty tag list.** `tags || post.tags` keeps an empty array, because `[]` is truthy in JavaScript. An update that sends `tags: []` therefore clears the tags.

## Model

| member | source | states |
|---|---|---|
| JsBuiltins.OrElse | server/controllers/postController.js:105-108 | `x \|\| fallback` on a string: a non-empty string is kept, and an absent or empty one gives the fallback. |
| JsBuiltins.TrimStart | server/models/Post.js:7 | The result is a suffix of the input, everything cut off is white space, and the result does not start with white space. |
| JsBuiltins.TrimEnd | server/models/Post.js:7 | The result is a prefix of the input, everything cut off is white space, and the result does not end with white space. |
| JsBuiltins.Trim | server/models/Post.js:7 | The trimmed string is no longer than the input and has no blank at either end. A string that has none is unchanged. |
| JsBuiltins.TrimContent | server/models/Post.js:7 | trim removes only white space at the two ends: the input is the trimmed string with a run of white space before it and a run after it. |
| JsBuiltins.TrimSlices | server/models/Post.js:7 | Cutting blanks from the start and then from the end leaves a slice of the input with only white space around it. |
| JsBuiltins.TrimIdempotent | server/models/Post.js:7 | Trimming twice is trimming once. |
| JsBuiltins.ToLower | server/models/Post.js:26 | Each character is lowered in place, keeping the length. |
| JsBuiltins.ToLowerIsLower | server/models/Post.js:26 | The result is in lower case. |
| JsBuiltins.ToLowerOfLower | server/models/Post.js:26 | A lower-case string is unchanged. |
| JsBuiltins.TrimToLower | server/models/Post.js:25-26 | Trimming and lowering commute. |
| JsBuiltins.Split | client/src/pages/Admin.js:165 | There is at least one piece, and no piece holds the separator. |
| JsBuiltins.Join | client/src/pages/Admin.js:144 | No parts give the empty string, and one part gives that part alone. |
| JsBuiltins.SplitJoin | client/src/pages/Admin.js:144-165 | Splitting what join wrote, on a separator no part holds, gives back the parts. |
| JsBuiltins.ReplaceFirst | server/middleware/auth.js:6 | Without an occurrence the string is unchanged. Otherwise the first occurrence, and only it, is replaced. |
| JsBuiltins.ReplaceFirstAtFront | server/middleware/auth.js:6 | A pattern at the front is removed, leaving what follows it. |
| JsBuiltins.ParseInt | server/controllers/postController.js:7-8 | A blank string is NaN. A negative result comes only from a leading '-' after the blanks. |
| JsBuiltins.ParseNumber | server/controllers/postController.js:7-8 | The same on a string without leading blanks: an empty string is NaN, and a negative value needs a leading '-'. |
| JsBuiltins.DigitPrefixThenRest | server/controllers/postController.js:7-8 | The digits read are exactly the digits before the first character that is not a digit of the radix. |
| JsBuiltins.ParseDigitsThenRest | server/controllers/postController.js:7-8 | parseInt stops at the first non-digit: decimal digits followed by anything else read as those digits' value, except a lone "0" followed by 'x' or 'X', which starts a hexadecimal number. |
| JsBuiltins.ParseNumeralPrefix | server/controllers/postController.js:7-8 | parseInt("12abc") is 12. |
| JsBuiltins.ParseIntSkipsSpace | server/controllers/postController.js:7-8 | Leading white space does not change the value. |
| JsBuiltins.ParseDecimal | server/controllers/postController.js:7-8 | parseInt reads back the decimal digits of n as n. |
| JsBuiltins.ParseNegativeDecimal | server/controllers/postController.js:7-8 | '-' before String(n) reads as -n. |
| JsBuiltins.ParseHex | server/controllers/postController.js:7-8 | `0x` before hexadecimal digits reads them in radix 16. |
| JsBuiltins.ParseIntNaN | server/controllers/postController.js:7-8 | A first non-blank character that is neither a sign nor a decimal digit gives NaN. |
| JsBuiltins.ParseIntOr | server/controllers/postController.js:7-8 | `parseInt(x) \|\| fallback`: the parsed value unless it is NaN or 0, and the fallback for a missing parameter. |
| JsBuiltins.CeilDiv | server/controllers/postController.js:27 | The result r is `Math.ceil(total / limit)`: for a positive limit, (r - 1)·limit < total <= r·limit; for a negative one, r·limit <= total < (r - 1)·limit. |
| PostController.PageOf | server/controllers/postController.js:7 | The page is what `parseInt` yields. It falls back to 1 only when the parse gives NaN or 0, so negative pages pass through. |
| PostController.LimitOf | server/controllers/postController.js:8 | The limit is what `parseInt` yields. It falls back to 10 only when the parse gives NaN or 0. |
| PostController.SkipOf | server/controllers/postController.js:9 | The skip is 0 exactly on page 1. It is negative exactly when the page is below 1 with a positive limit, or above 1 with a negative limit. |
| PostController.NegativePageFails | server/controllers/postController.js:7-9 | `?page=-n` reads as page -n, and the listing answers 500. |
| PostController.VisibleKeys | server/controllers/postController.js:12 | A post is visible if and only if the caller is an admin or the post is published. |
| PostController.ListingVisibility | server/controllers/postController.js:12 | A caller that is not an admin, or no caller at all, is listed published posts only. An admin's filter admits every post. |
| PostController.Newest | server/controllers/postController.js:15 | The id it returns sorts before every other id in the set. |
| PostController.Ordered | server/controllers/postController.js:15 | Each id of the set appears once, and every id comes before every later one in the sort order (createdAt descending). |
| PostController.ListingKeys | server/controllers/postController.js:14-15 | The listed ids are exactly the visible ones. |
| PostController.Listing | server/controllers/postController.js:14-15 | The listing holds the documents of the sorted visible ids, one for one. |
| PostController.ListingExactlyOnce | server/controllers/postController.js:12-15 | Every visible document is listed exactly once, and nothing else is listed. |
| PostController.ListingNewestFirst | server/controllers/postController.js:15 | createdAt does not increase along the listing. |
| PostController.ListingMembers | server/controllers/postController.js:14 | Every listed document is in the collection and visible to the caller. |
| PostController.Window | server/controllers/postController.js:16-17 | It returns the slice [skip, skip + n) of the list, clipped at the end, and so at most n items. |
| PostController.WindowNewestFirst | server/controllers/postController.js:15-17 | A window of a newest-first list is newest first. |
| PostController.GetPosts | server/controllers/postController.js:5-35 | A negative skip answers 500; every other query answers 200. The page is the window of the sorted listing. It holds at most \|limit\| visible documents from the collection. total counts the same filter, pages is the ceiling of total/limit, and current is the page. The page's posts are newest first. |
| PostController.GetPostsNewestFirst | server/controllers/postController.js:14-18 | A returned page has non-increasing createdAt. |
| PostController.GetPostsExample | server/controllers/postController.js:7-29 | With 10 visible posts, `?page=2&limit=6` returns the last 4 of the listing, with pagination (2, 2, 10). |
| PostController.ExampleQuery | server/controllers/postController.js:7-9 | The query `page=2, limit=6` reads as page 2, limit 6 and skip 6. |
| PostController.Like | server/controllers/postController.js:157 | Only that document changes, and its likes go up by one. |
| PostController.LikeRepeatedlyAdds | server/controllers/postController.js:150-162 | n likes add exactly n to the counter and change nothing else. The counter is not idempotent. |
| PostController.CreateFields | server/controllers/postController.js:69-78 | The fields handed to Post.create: tags default to [] and featuredImage to ''. The author is the caller. published is true only for a literal `true`. |
| PostController.CreatedPost | server/controllers/postController.js:78 | Post.create fails exactly when the built document fails the validators. Otherwise it stores a document in stored shape, with the given id, author and creation time. |
| PostController.CreatedDefaults | server/controllers/postController.js:69-78 | A created post keeps the caller as author and has zero likes and views. Its title is trimmed and its tags are normalised. An omitted published flag gives a draft. Its excerpt is generated from its content, and it is in stored shape. |
| PostController.CreatedFails | server/controllers/postController.js:71-78 | Creation fails validation exactly when the trimmed title is empty or longer than 200 characters, or the content is empty or missing. |
| PostController.Updated | server/controllers/postController.js:105-111 | title, content, tags and featuredImage take the sent value only when it is truthy, and otherwise keep their old value. published changes only for a boolean. likes, views, author, excerpt and createdAt are untouched. |
| PostController.UpdatedSave | server/controllers/postController.js:113 | The save fails exactly when the trimmed title is empty or longer than 200 characters. Otherwise the document is stored as assigned, with its old excerpt, even when the content changed. |
| PostController.StoredMapPut | server/controllers/postController.js:113 | Saving a stored-shape document under its own id keeps the collection well formed. |
| PostController.PostStore.constructor | server/controllers/postController.js:1-169 | An empty, well-formed collection. |
| PostController.PostStore.List | server/controllers/postController.js:5-35 | The listing reply of the current collection. Nothing changes. |
| PostController.PostStore.GetPost | server/controllers/postController.js:38-59 | An absent or unpublished post answers 404 and changes nothing. Otherwise views goes up by exactly one, no other field changes, and that document is returned. |
| PostController.PostStore.CreatePost | server/controllers/postController.js:62-92 | Validation errors answer 400 and change nothing. A missing req.user, or a document that fails validation, answers 500 and changes nothing. Otherwise exactly one new post is added under a fresh id and answered with 201. |
| PostController.PostStore.UpdatePost | server/controllers/postController.js:95-127 | An unknown id answers 404, and a failed save answers 500; neither changes anything. Otherwise only that document changes, to the assigned one. |
| PostController.PostStore.DeletePost | server/controllers/postController.js:130-147 | An unknown id answers 404. Otherwise exactly that document is removed and the others are unchanged. |
| PostController.PostStore.LikePost | server/controllers/postController.js:150-169 | An unknown id answers 404. Otherwise the like counter goes up by one, for a published post or a draft, and the new count is returned. |
| PostSchema.SetTitle | server/models/Post.js:4-9 | The stored title is trimmed and no longer than what was given. |
| PostSchema.SetTag | server/models/Post.js:23-27 | Every stored tag is trimmed and in lower case. |
| PostSchema.SetTagContent | server/models/Post.js:23-27 | The tag setter changes only case and white space at the ends: the lower-cased input is the stored tag with white space before and after it. |
| PostSchema.SetTagFixpoints | server/models/Post.js:23-27 | The tag setter leaves a tag unchanged if and only if the tag is already normalised. The setter is idempotent. |
| PostSchema.SetTags | server/models/Post.js:23-27 | The setter is applied to each tag, keeping the number and order of tags. |
| PostSchema.SetTagsOfNormalised | server/models/Post.js:23-27 | Normalised tags pass through the setters unchanged. |
| PostSchema.NewDocument | server/models/Post.js:4-43 | A new document has featuredImage '' and published true by default, zero likes and views, no excerpt, a trimmed title and normalised tags. |
| PostSchema.Valid | server/models/Post.js:4-17 | A document that passes the validators has a non-empty title and content, a title of at most 200 characters and an excerpt of at most 300. |
| PostSchema.TagMatch | server/models/Post.js:51 | It finds the match of `<[^>]+>` at the front of the string, or reports that there is none. |
| PostSchema.StripTags | server/models/Post.js:51 | The result is no longer than the input, and it uses only characters of the input. |
| PostSchema.StripTagsKeepsText | server/models/Post.js:51 | Text before the first '<' is kept as it is, in front of what the rest strips to. |
| PostSchema.StripTagsDropsTag | server/models/Post.js:51 | A complete tag `<x>` at the front is removed and nothing else is. |
| PostSchema.StripTagsExample | server/models/Post.js:51 | `a<b>c` strips to `ac`. |
| PostSchema.StripTagsTagFree | server/models/Post.js:51 | The stripped text contains no '<', then one or more characters other than '>', then '>'. |
| PostSchema.StripTagsOfTagFree | server/models/Post.js:51 | Text without markup passes through the replacement unchanged. |
| PostSchema.StripTagsIdempotent | server/models/Post.js:51 | Stripping twice is stripping once. |
| PostSchema.GenerateExcerpt | server/models/Post.js:51 | The excerpt is the first 150 characters of the stripped content followed by '...'. It is at most 153 characters and never empty. |
| PostSchema.ExcerptTagFree | server/models/Post.js:51 | The excerpt holds no markup tag. |
| PostSchema.PreSave | server/models/Post.js:49-54 | An excerpt is generated only when there is none and the content is non-empty. An existing excerpt is never overwritten, and no other field changes. |
| PostSchema.PreSaveIdempotent | server/models/Post.js:49-54 | A second save leaves the document as the first left it. |
| PostSchema.ExcerptSurvivesContentEdit | server/models/Post.js:50 | Once a document has an excerpt, editing its content does not refresh the excerpt. |
| PostSchema.Save | server/models/Post.js:4-54 | save() succeeds if and only if the validators pass: the title has 1 to 200 characters, the content is present and the excerpt has at most 300 characters. It then stores the document through the hook. |
| PostSchema.SaveStores | server/models/Post.js:4-54 | Saving a document that went through the setters stores it in stored shape. |
| PostSchema.SaveOfStored | server/models/Post.js:4-54 | Saving a stored document again succeeds and changes nothing. |
| AuthMiddleware.BearerToken | server/middleware/auth.js:6 | The token is the header with its first 'Bearer ' removed, wherever that occurs. There is no token without a header. |
| AuthMiddleware.Authenticate | server/middleware/auth.js:6-20 | There is no token exactly when the header is missing or the token left is empty. A user is authenticated exactly when the token verifies to the id of an existing user, and it is that user. |
| AuthMiddleware.MissingTokenIgnoresLookup | server/middleware/auth.js:8-10 | With no token the verdict does not depend on the verifier or on the users. |
| AuthMiddleware.BearerTokenAuthenticates | server/middleware/auth.js:6-20 | `Bearer <token>`, with a token that verifies to an id some account has, authenticates the user with that id. |
| AuthMiddleware.UnknownIdIsInvalid | server/middleware/auth.js:13-17 | A token that verifies to an id no account has is rejected as invalid. |
| AuthMiddleware.RawHeaderIsToken | server/middleware/auth.js:6 | A header without 'Bearer ' is handed to the verifier as it is. |
| AuthMiddleware.AuthStep | server/middleware/auth.js:4-25 | auth calls next if and only if the header authenticates a user. Every other outcome is a 401, and the "no token" 401 is sent exactly when there is no token. |
| AuthMiddleware.AdminStep | server/middleware/auth.js:27-32 | adminAuth calls next if and only if req.user is an admin. Otherwise it answers 403 for a user, and 500 when req.user is unset. |
| AuthMiddleware.SoftUser | server/middleware/auth.js:39-49 | softAuth sets req.user only when a token is present, verifies and names an existing user. Otherwise req.user is left as it was. |
| AuthMiddleware.SoftAuthAgreesWithAuth | server/middleware/auth.js:4-51 | Where auth lets a request through, softAuth sets the same user. Where auth answers 401, softAuth leaves req.user alone. |
| AuthMiddleware.Auth | server/middleware/auth.js:4-25 | It answers once or calls next once. req.user is set to the authenticated user exactly when next is called. |
| AuthMiddleware.AdminAuth | server/middleware/auth.js:27-32 | The outcome depends on req.user alone. The token is not re-verified. |
| AuthMiddleware.SoftAuth | server/middleware/auth.js:35-51 | It always calls next and never answers, and it sets req.user as SoftUser says. |
| Identity.FindById | server/middleware/auth.js:13 | It finds a user exactly when some account has that `_id`, and the user found has that id; it is the first such account. |
| Identity.FindByIdWellNumbered | server/middleware/auth.js:13 | In a collection whose ids are positions, an id below the size finds the user at that position, and any other id finds nobody. |
| Validation.Errors | server/routes/posts.js:16-19 | The chains record no error if and only if every rule passes. At most one error is recorded per rule, and each error names a failing rule's field. |
| Validation.Passes | server/routes/auth.js:9-18 | An absent field fails every length rule with a positive minimum, and passes one with minimum 0 and no maximum. exists() passes exactly when the field is present. |
| Validation.Check | server/routes/posts.js:17-18 | A validation chain always calls next, and it appends its rule's errors to the request. |
| Pipeline.StageStep | server/routes/posts.js:22-31 | A validation stage only records errors, and no other stage touches them. softAuth always passes the request on. |
| Pipeline.Run | server/routes/posts.js:22-31 | An empty chain leaves the state as it is. A stage that answers ends the chain with its own state. The errors recorded before the chain are kept, in front of any new ones. |
| Pipeline.Validations | server/routes/posts.js:16-19 | An array of chains becomes one validation stage per rule, in order. |
| Pipeline.RunValidations | server/routes/posts.js:16-19 | A chain made only of validations never answers, and records the errors of its rules in order. |
| Pipeline.RunChain | server/routes/posts.js:22-31 | Running the middleware on the request ends in the state and outcome that Run computes. |
| PostRoutes.PostValidationErrors | server/routes/posts.js:16-19 | postValidation fails exactly on a title outside 1..200 characters or an empty or missing content. |
| PostRoutes.AdminChains | server/routes/posts.js:29-31 | On create, update and delete, auth runs before adminAuth. A missing or invalid token gives 401 and a non-admin gives 403. An admin gets through with req.user set. Only create records postValidation's errors. |
| PostRoutes.LikeChainGate | server/routes/posts.js:26 | Liking needs auth and nothing more. |
| PostRoutes.ListChainPasses | server/routes/posts.js:22 | The listing's chain never answers. It may only set the user. |
| PostRoutes.ServeList | server/routes/posts.js:22 | GET /posts answers as getPosts for the user softAuth found. |
| PostRoutes.ServeRead | server/routes/posts.js:23 | GET /posts/:id has no middleware. It answers 404 for an absent or unpublished post, whoever asks, and otherwise counts one view. |
| PostRoutes.ServeLike | server/routes/posts.js:26 | Without a valid token the 401 changes nothing. Otherwise exactly one like is added, or 404 is answered. |
| PostRoutes.ServeCreate | server/routes/posts.js:29 | Only an admin whose body passes postValidation creates a post. Every other request answers 401, 403 or 400 and changes nothing. For that admin, a document that fails the schema answers 500 and changes nothing; otherwise the reply is 201 with the new post, stored under the next id, and nothing else changes. |
| PostRoutes.ServeUpdate | server/routes/posts.js:30 | A request that is not an admin's answers 401 or 403 and changes nothing. For an admin, an unknown id answers 404 and a failed save answers 500, and neither changes the collection. The collection changes only for an admin. |
| PostRoutes.ServeDelete | server/routes/posts.js:31 | A request that is not an admin's answers 401 or 403 and changes nothing. An admin removes exactly that post, or gets 404. |
| AuthController.View | server/controllers/authController.js:40-45 | The user object of a reply carries id, name, email and role. |
| AuthController.RoleFor | server/controllers/authController.js:32 | A new user's role is 'admin' if and only if the email is admin@blog.com, and 'user' otherwise. |
| AuthController.FindByEmail | server/controllers/authController.js:22-25 | It returns the first user with that email, or none. An absent email matches no user. |
| AuthController.Registered | server/controllers/authController.js:12-51 | Validation errors answer 400 before any lookup. A taken email answers 400. In neither case is a user created. Otherwise exactly one user is appended, with the role rule applied, and answered with 201, a token for the new id and its public fields. |
| AuthController.RegisterRejectsBeforeLookup | server/controllers/authController.js:14-17 | With validation errors the answer does not depend on the users collection. |
| AuthController.RegisterKeepsEmailsUnique | server/controllers/authController.js:22-33 | register keeps ids in insertion order and emails unique. |
| AuthController.RegisterReplyHidesPassword | server/controllers/authController.js:37-46 | The register reply does not depend on the password. |
| AuthController.LoginReply | server/controllers/authController.js:54-86 | login succeeds if and only if the email is known and the password matches. An unknown email and a wrong password get the identical 401. On success the token is for that user's id. |
| AuthController.Users | server/controllers/authController.js:72-81 | The users of the collection, without their passwords, in order. |
| AuthController.LoginReplyHidesPassword | server/controllers/authController.js:72-81 | A successful login reply is the same for any stored passwords. |
| AuthController.FindByEmailOfUsers | server/controllers/authController.js:60 | The email lookup depends on the users only, not on their passwords. |
| AuthController.RegisterThenLogin | server/controllers/authController.js:12-86 | A user who registered can log in with the password they chose, and gets a token for their own id. |
| AuthController.GetProfile | server/controllers/authController.js:89-105 | The profile is exactly id, name, email, role and avatar of req.user. Without a user, 500 is answered. |
| AuthController.UserStore.constructor | server/controllers/authController.js:28 | An empty users collection. |
| AuthController.UserStore.Register | server/controllers/authController.js:12-51 | The reply and the new collection are register's, and the collection stays well numbered, with unique emails. |
| AuthController.UserStore.Login | server/controllers/authController.js:54-86 | login's reply. Nothing changes. |
| AuthRoutes.RegisterValidationErrors | server/routes/auth.js:9-13 | registerValidation fails exactly on a name outside 2..50 characters, a malformed email or a password shorter than 6. |
| AuthRoutes.ValidationChainsPass | server/routes/auth.js:9-18 | The validation chains never answer, and only record errors. |
| AuthRoutes.ServeRegister | server/routes/auth.js:21 | A failed registerValidation reaches register, which answers 400 and creates no user. |
| AuthRoutes.ServeLogin | server/routes/auth.js:15-22 | The login answer is login's whatever loginValidation recorded. |
| AuthRoutes.ServeProfile | server/routes/auth.js:25 | Without a token that names a user the answer is 401. Otherwise it is that user's profile. |
| AdminPage.TrimAll | client/src/pages/Admin.js:165 | Each piece is trimmed, in order. |
| AdminPage.DropEmpty | client/src/pages/Admin.js:165 | Exactly the non-empty pieces are kept, and there are no more of them than pieces. A list without empty pieces is unchanged. |
| AdminPage.DropEmptyCons | client/src/pages/Admin.js:165 | The filter keeps order: the first piece stays in front, unless it is empty, followed by the filtered rest. |
| AdminPage.DropEmptyCounts | client/src/pages/Admin.js:165 | Every non-empty piece is kept as often as it occurs, and no empty piece is kept. |
| AdminPage.ParseTags | client/src/pages/Admin.js:165 | No parsed tag is empty, padded with white space, or holds a comma. |
| AdminPage.TrimmedPieces | client/src/pages/Admin.js:165 | Trimming comma-free pieces gives trimmed, comma-free pieces. |
| AdminPage.TrimSubstring | client/src/pages/Admin.js:165 | Trimming introduces no character. |
| AdminPage.ParseSingle | client/src/pages/Admin.js:165 | A comma-free field holds the one tag that its trimmed text is. |
| AdminPage.ParseTagThenRest | client/src/pages/Admin.js:144-165 | 't, rest' parses as t followed by what rest parses to. |
| AdminPage.ParsePaddedField | client/src/pages/Admin.js:144-165 | Parsing the joined tags, even after one leading space, gives them back. |
| AdminPage.ParseTagField | client/src/pages/Admin.js:144-165 | For non-empty, trimmed, comma-free tags, parsing `tags.join(', ')` returns the same list. |
| AdminPage.TagField | client/src/pages/Admin.js:144 | No tags give the empty field, and one tag gives that tag alone; ParseTagField reads back any field it writes from non-empty, trimmed, comma-free tags. |
| AdminPage.InitialForm | client/src/pages/Admin.js:141-146 | The editor starts with the post's fields and its joined tags, or with empty fields for a new post. |
| AdminPage.SubmitBody | client/src/pages/Admin.js:163-166 | The payload holds title, content, parsed tags and featuredImage, and never published. |
| AdminPage.EditorPublishedFlag | client/src/pages/Admin.js:163-173 | A post created from the editor is a draft, and one updated from it keeps its flag. |
| AdminPage.EditorKeepsTags | client/src/pages/Admin.js:144-165 | Opening a post in the editor and saving it untouched sends back its tags, when none is empty or holds a comma. |
| AdminPage.RemoveById | client/src/pages/Admin.js:35 | Exactly the entries with another id are kept. |
| AdminPage.RemoveByIdAppend | client/src/pages/Admin.js:35 | The filter keeps the order: it distributes over concatenation. |
| AdminPage.RemoveAbsentId | client/src/pages/Admin.js:35 | Deleting an id that is not in the table leaves the table as it is. |
| AdminPage.ReplaceById | client/src/pages/Admin.js:49 | Entries with the saved post's id become it. The length and the other entries stay. |
| AdminPage.ReplaceSingle | client/src/pages/Admin.js:49 | With distinct ids, saving replaces exactly the matching entry, in its place. |
| AdminPage.ReplaceKeepsIds | client/src/pages/Admin.js:49 | Replacing keeps every entry's id. |
| AdminPage.Admin.constructor | client/src/pages/Admin.js:8-11 | Initially the table is empty, no editor is shown, nothing is being edited and nothing is loading. |
| AdminPage.Admin.FetchAllPosts | client/src/pages/Admin.js:19-29 | A successful request sets the table to the response. A failed one leaves the table as it was. Loading ends either way. |
| AdminPage.Admin.HandleDelete | client/src/pages/Admin.js:31-40 | Only a confirmed and successful delete removes the post's entries from the table. |
| AdminPage.Admin.HandleEdit | client/src/pages/Admin.js:42-45 | The editor opens on that post. |
| AdminPage.Admin.OpenNewEditor | client/src/pages/Admin.js:74 | The editor opens for a new post. |
| AdminPage.Admin.CancelEditor | client/src/pages/Admin.js:62-65 | The editor closes with nothing being edited, and the table is unchanged. |
| AdminPage.Admin.HandlePostSaved | client/src/pages/Admin.js:47-55 | An edited post replaces its entry, keeping the length. A new post is prepended, adding one. Afterwards the editor is closed and nothing is being edited. |
| HomePage.AfterFetch | client/src/pages/Home.js:16-36 | A page-1 result replaces the list and a later page is appended. page becomes pageNum, and hasMore becomes pageNum < pages. On failure only error changes. loading is false afterwards. |
| HomePage.AfterLoadMore | client/src/pages/Home.js:38-42 | The next page is fetched only when there is more and nothing is loading. Otherwise nothing changes. |
| HomePage.Feed.constructor | client/src/pages/Home.js:6-10 | The feed starts loading on page 1, with no posts, no error and more to come. |
| HomePage.Feed.FetchPosts | client/src/pages/Home.js:16-36 | The new state is AfterFetch of the old one. |
| HomePage.Feed.LoadMore | client/src/pages/Home.js:38-42 | The new state is AfterLoadMore of the old one. |
| HomePage.FeedQuery | client/src/pages/Home.js:19 | Both parameters are present, and parseInt reads them back as pageNum and 6. |
| HomePage.Fetched | client/src/pages/Home.js:19 | Every request the feed sends is answered with 200, with the page it asked for (page 0 reads as 1) and the total of visible posts. |
| HomePage.FeedQueryFields | client/src/pages/Home.js:19 | `?page=p&limit=6` reads back as page p, limit 6 and skip 6(p-1). |
| HomePage.FetchedPage | client/src/pages/Home.js:19 | getPosts answers the feed's request for page p with the p-th run of six posts of the listing, and the page count for six per page. |
| HomePage.FetchedServes | client/src/pages/Home.js:19 | getPosts serves every page the feed can ask for. |
| HomePage.ShowsStep | client/src/pages/Home.js:22-42 | A loadMore shows the next page while there is one. Otherwise it leaves the feed as it is. |
| HomePage.BrowseShows | client/src/pages/Home.js:16-42 | After the first fetch and k loadMore calls, the feed shows the first 6·page posts of the listing. page is min(1 + k, last page), and hasMore holds exactly while page is below the page count. |
| HomePage.BrowseComplete | client/src/pages/Home.js:28-42 | Once there is nothing more to load, the feed holds the whole listing. |
| HomePage.BrowseEnds | client/src/pages/Home.js:28-42 | After pages - 1 loadMore calls there is nothing more to load. |
| HomePage.FeedShowsListing | client/src/pages/Home.js:19-28 | Paging through an unchanged collection until hasMore is false yields every post the caller may see, each exactly once, newest first. |

## Left out

- Storage. MongoDB and Mongoose I/O (`find`, `countDocuments`, `findById`, `save`, `deleteOne`) are replaced by an in-memory map. Storage errors other than a negative skip are not modelled, and neither are malformed ObjectId casts.
- `populate('author', 'name email')` is left out. A reply carries the author's id, not the populated name and email.
- Timestamps. The collection's `timestamps` (`updatedAt`) are left out. `createdAt` is the `now` argument.
- Sort order for equal times. Posts created at the same instant are ordered by id in the model. MongoDB leaves their order unspecified.
- Negative limits. A negative limit is read as its absolute value, which is what MongoDB does with a negative `limit`.
- String semantics. Strings are sequences of characters, so lengths count characters, not UTF-16 code units. `toLowerCase` is modelled on ASCII letters only.
- Body types. Body fields have the types the client sends. A non-boolean `published` is taken as absent, and a `tags` value that is not an array is not modelled.
- The User model is not part of this model. A registration body without name, email or password is taken to fail the model's required fields, so register answers 500 there.
- bcrypt hashing of the stored password is not modelled. `comparePassword` is an abstract predicate.
- JWT. Token signing, the secret and the 30-day expiry are abstract. The verifier is a parameter.
- validator.js's e-mail grammar is a parameter.
- Concurrency. Concurrent requests, and the atomicity of the read-modify-write on views and likes, are not modelled. Requests are sequential.
- Logging. The `console.error` logging is left out. Every catch block is modelled as the 500 it sends.
- Client rendering. React rendering, navigation, `useEffect` timing, `window.confirm` and `alert` are left out. The confirmation and the outcome of each request are arguments.
- Admin listing size. `fetchAllPosts` does not model `?limit=100` capping the admin table: the response is an argument.
- HomePage.Feed.FetchPosts: the asynchronous interleaving of a fetch with other events is left out. The fetch is one atomic step, so the `loading` flag that loadMore checks is only ever true before the first fetch.
- HomePage.FeedShowsListing: stated for a collection that does not change between page requests.
- AuthController.FindByEmail: an absent email is taken to match no user. That is a modelling choice about `findOne({ email: undefined })`: how Mongoose casts an undefined condition is not modelled.
- Number width. The model's numbers are exact integers. JavaScript Numbers are IEEE doubles, and that is not modelled: `parseInt` rounds digit strings above 2^53 and gives `Infinity` for very long ones, `(page - 1) * limit` and `Math.ceil(total / limit)` round, and `String(n)` writes exponent notation from 1e21 on. No ordinary query reaches these values.
- Out of scope. server/server.js, server/routes/users.js, and the client files other than Admin.js and Home.js are not part of this model.
