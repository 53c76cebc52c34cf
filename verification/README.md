# Law-firm site backend: access guards, credentials and content rules

This project is a functional Dafny model of the decision logic in an
Express/Prisma backend for a law firm's website. The model covers:

- **The two access guards.** `authMiddleware` admits administrators and
  `roleMiddleware` admits any token whose `role` claim is "admin" or
  "subadmin". The model also covers what happens when a token issued for
  one kind of principal is presented to the other guard.
- **Credentials.** Admin login, sub-admin creation and login, the merge of
  sub-admin permission flags, sub-admin deletion and the sub-admin profile.
- **Content records.** The rules of the lawyer, service, post, enquiry and
  media-coverage handlers: required fields, slug uniqueness, partial
  updates, the replacement of lawyer-service associations, the merge of
  connected and bio-matched lawyers, the enquiry e-mail check, its
  normalisation and its sort whitelist, and the page arithmetic of the
  listings.
- **Site settings.** The one-row upsert of the site-settings PUT route.
- **Route wiring.** The guard assignments that change what a request can
  do.

The database is a set of immutable maps from record id to record. The
lawyer-service join table is a sequence of rows. Every handler is a pure
function. A handler that writes maps the store and the request to a
`Handled(reply, store)` pair. A read-only handler (the logins, the profile,
the listings and the lookups) maps them to a bare reply. A reply is one of
three things:

- `Ok(status, body)`;
- `Err(status, message)`, carrying the handler's own message;
- `Fault(500)`, the handler's catch block after a library call threw. Its message text is not modelled.

A JSON body field is `Undefined`, `Null` or `Given(v)`, so that the
handlers' three tests can be told apart: JavaScript truthiness,
`!== undefined`, and `??`.

Library and environment calls are parameters of the model:

- `jwt.verify` is a `Verifier` oracle. Its answer classes are verified
  claims, `JsonWebTokenError`, `TokenExpiredError` and any other error.
  The library's own rule that an empty token is malformed is modelled.
- `jwt.sign` is represented by its arguments, an `Issued(claims, options)`
  record.
- `bcrypt.hash` and `bcrypt.compare` are `Hasher` and `Comparer`
  functions.
- `new URL(link)` is a `UrlParser` predicate.
- Ids the database generates are `newId` parameters.
- The order of a `findMany` answer is an `order` parameter. The model
  requires only that `order` list every key exactly once
  (`Common.Enumerates`).

Behaviours of the code worth knowing:

- No route checks a sub-admin's `canManage*` flags. The role guard admits
  every sub-admin token.
- An admin's own token carries no `role` claim, so the role guard refuses
  it with 403.
- `createSubAdmin` returns the stored row, password hash included.
- The creator of a sub-admin is never recorded (see Findings).

## Model

| member | source | states |
|---|---|---|
| AuthMiddleware.VerifyErrorReply | middleware/authMiddleware.js:60-77 | a malformed or expired token is answered 401, and every other verification error 500 |
| AuthMiddleware.AuthGuard | middleware/authMiddleware.js:13-55 | the admin guard's checks in their order: Bearer prefix (401), a non-empty token (401), verification (401/401/500 by error class), an `adminId` claim (401 "Invalid token format."), the admin's presence in the store (401); otherwise it admits the stored admin's id and email |
| AuthMiddleware.AuthGuardAdmitsIff | middleware/authMiddleware.js:41-55 | the guard admits exactly when every check passes, and the attached identity is then the stored admin's {id, email} with id equal to the `adminId` claim |
| AuthMiddleware.HeaderCheckedBeforeVerification | middleware/authMiddleware.js:13-28 | a missing or non-Bearer header, or an empty token, gets the same 401 whatever verifier and admin store are in place, because it is refused before verification or lookup |
| AuthMiddleware.AuthGuardStatuses | middleware/authMiddleware.js:13-77 | every refusal is 401 or 500, and a refusal is 500 exactly when verification fails outside the two named error classes |
| RoleMiddleware.RoleGuard | middleware/roleMiddleware.js:5-27 | a missing or non-Bearer header gets 401 "Authorization token missing"; every verification failure, the empty token included, gets the one 401 "Invalid or expired token"; the guard admits exactly a verified role of "admin" or "subadmin", with the decoded claims as the identity; any other role gets 403 |
| Jwt.BearerTokenShape | middleware/authMiddleware.js:21 | the token is the space-free run after "Bearer ", and it is empty exactly when the header ends there or a second space follows |
| Jwt.BearerRoundTrip | middleware/authMiddleware.js:21 | a header built as "Bearer " plus a space-free token yields that token back |
| JsString.SplitJoin | middleware/authMiddleware.js:21 | splitting on a character and joining the pieces with it gives back the original string |
| JsString.SplitAfterPrefix | middleware/authMiddleware.js:21 | after a separator-free prefix and one separator, the first two pieces are the prefix and the next separator-free run |
| JsString.SplitFirstEmpty | middleware/authMiddleware.js:21 | the first piece is empty exactly when the string is empty or starts with the separator |
| JsString.TrimStart | controllers/enquiryController.js:30-34 | the result is a suffix of the input; exactly the leading whitespace is dropped |
| JsString.TrimEnd | controllers/enquiryController.js:30-34 | the result is a prefix of the input; exactly the trailing whitespace is dropped |
| JsString.TrimIdempotent | controllers/enquiryController.js:30-34 | trimming a trimmed string changes nothing |
| JsString.TrimNoSpace | controllers/enquiryController.js:32 | trimming a string that has no whitespace changes nothing |
| JsString.Lower | controllers/authController.js:23 | lower-casing keeps the length and maps each character on its own (ASCII letters only) |
| JsString.LowerIdempotent | controllers/authController.js:23 | lower-casing twice is the same as lower-casing once |
| JsString.LowerKeepsNoSpace | controllers/enquiryController.js:32 | lower-casing a string without whitespace adds none |
| Principals.AdminByEmail | controllers/authController.js:22-24 | the email lookup finds a record exactly when some stored admin has that email, and then returns that stored admin |
| Principals.SubAdminByEmail | controllers/subAdminController.js:25-27 | the email lookup finds a record exactly when some stored sub-admin has that email, and then returns that stored sub-admin |
| AuthController.AdminToken | controllers/authController.js:44-54 | an admin token's claims are exactly `adminId` and `email`, with no `id` and no `role`, signed for "24h" by issuer "law-firm-api" |
| AuthController.LoginAdmin | controllers/authController.js:14-67 | 400 when the email or password is missing; success exactly when the admin found by the lower-cased, trimmed email has a matching password; the payload is only the token and {id, email}; the handler never faults and never writes |
| AuthController.LoginAdminEnumerationResistant | controllers/authController.js:26-41 | with both fields present, an unknown email and a wrong password get the identical 401 "Invalid credentials.", and failure happens exactly in those two cases |
| AuthController.LoginKeyNormalises | controllers/authController.js:22-24 | two emails with the same lower-cased, trimmed key get the same reply |
| AuthController.LoginAdminSucceeds | controllers/authController.js:22-67 | a stored admin whose email is already normalised, logging in with a matching password, receives a token naming exactly that admin |
| SubAdminController.InitialPermissions | controllers/subAdminController.js:10-19 | each flag a create request omits defaults to false, and a flag is set only when the body sends `true` |
| SubAdminController.CreatedBy | controllers/subAdminController.js:42 | with no user on the request, or a user whose `id` claim is missing or empty, the creator is "unknown"; a user with a non-empty `id` claim is recorded as the creator |
| SubAdminController.CreateSubAdmin | controllers/subAdminController.js:8-51 | a missing email or password gets 400 with no write; an existing email gets 400 "SubAdmin already exists" with no write; otherwise the new row stores the hashed password (10 rounds, never the plaintext), the default flags and the creator; the reply is 201 with that row; emails stay unique |
| SubAdminController.SubAdminToken | controllers/subAdminController.js:66-74 | a sub-admin token's claims are exactly {id, role "subadmin", email}, with no `adminId` and no flags, and it expires in "7d" |
| SubAdminController.LoginSubAdmin | controllers/subAdminController.js:54-81 | the email is looked up verbatim; a missing email faults; an unknown email gets 401 "Invalid credentials" whatever the password field holds; a known email without a password faults; a wrong password gets the same 401; success returns the sub-admin token |
| SubAdminController.LoginSubAdminRevealsRegisteredEmails | controllers/subAdminController.js:58-64 | for every pair of stores and comparers, the same request without a password is answered 500 where the email is registered and 401 where it is not, so the two replies differ |
| SubAdminController.RevealingStoresExist | controllers/subAdminController.js:58-64 | a concrete instance: `{ email: "a@b.co" }` gets 500 from a store holding that email and 401 from the empty store |
| SubAdminController.LoginSubAdminChecked | controllers/subAdminController.js:54-81 | the login with the body validated first: 400 for a missing field, success on the same condition as before, and never a fault |
| SubAdminController.LoginSubAdminCheckedHidesEmails | controllers/subAdminController.js:58-64 | a failed validated login gets the same reply for every store and every password comparer |
| SubAdminController.UpdateSubAdminRoles | controllers/subAdminController.js:107-145 | an unknown id gets 404 with no write; otherwise each flag becomes new ?? old, so an absent or null flag keeps its value and an explicit false revokes; email, password, name, creator and every other row stay unchanged |
| SubAdminController.UpdateSubAdminRolesIdempotent | controllers/subAdminController.js:123-134 | applying the same role update twice leaves what applying it once leaves |
| SubAdminController.UpdateSubAdminRolesEmptyIsNoop | controllers/subAdminController.js:126-132 | an update whose flags are all absent, or all null, leaves the store unchanged |
| SubAdminController.DeleteSubAdmin | controllers/subAdminController.js:95-104 | deleting an unknown id throws (500) and changes nothing; otherwise exactly that row is removed |
| SubAdminController.GetSubAdminProfile | controllers/subAdminController.js:147-173 | claims without `id` get a 500; an unknown id gets 404; otherwise the reply is the selected fields (id, name, email, flags), without the password hash or the creator |
| Catalog.ServiceBySlug | controllers/serviceController.js:103 | the slug lookup finds a record exactly when some stored service has that slug |
| Catalog.RowsForLawyerIds | controllers/lawyerController.js:115-123 | the rows created for a lawyer give it exactly the requested services, in order, and give no other lawyer any service |
| Catalog.RowsForServiceIds | controllers/serviceController.js:115-121 | the rows created for a service give it exactly the requested lawyers, in order, and give no other service any lawyer |
| Catalog.DropLawyerEffect | controllers/lawyerController.js:189 | `deleteMany` on a lawyer's join rows leaves it with no services and every other lawyer with its own |
| Catalog.DropServiceEffect | controllers/serviceController.js:170 | `deleteMany` on a service's join rows leaves it with no lawyers and every other service with its own |
| Catalog.RelinkLawyerExact | controllers/lawyerController.js:187-196 | after a replacement the lawyer's services are exactly the requested list, and every other lawyer's services are unchanged |
| Catalog.RelinkServiceExact | controllers/serviceController.js:168-175 | after a replacement the service's lawyers are exactly the requested list, and every other service's lawyers are unchanged |
| Catalog.NotAmong | controllers/serviceController.js:30 | the filter keeps exactly the matched lawyers whose id is not already connected, and keeps ids unique |
| Catalog.CombineLawyers | controllers/serviceController.js:28-31 | the connected lawyers form a prefix of the combined list; a lawyer is in the list exactly when it is connected or it was matched and its id is not connected; every entry after the prefix is a bio match with an unconnected id, and that part repeats no id when the matches do not |
| Catalog.CombineCoversMatched | controllers/serviceController.js:68-71 | the id of every bio-matched lawyer appears in the combined list |
| Catalog.CombineIdUnique | controllers/serviceController.js:28-31 | if the connected and the matched lists each hold an id at most once, so does the combined list |
| Catalog.ConnectedLawyers | controllers/serviceController.js:20 | the connected lawyers are the join rows' lawyers of the service, one per row, in join-row order (the order assumed for an unordered include; see Left out) |
| Catalog.ConnectedServices | controllers/lawyerController.js:22-25 | the flattened services are the join rows' services of the lawyer, one per row, in join-row order (the order assumed for an unordered include; see Left out) |
| Catalog.CombinedMembership | controllers/serviceController.js:20-31 | a stored lawyer is in a service's combined list exactly when it is connected to the service or its bio equals the service name ignoring ASCII case |
| ServiceController.CombinedView | controllers/serviceController.js:18-33 | a service's view keeps the service and starts with its connected lawyers. A stored lawyer is listed exactly when it is connected or its bio matches. Every listed lawyer is a stored one. The bio-matched part adds each lawyer once and none already connected, so the list repeats no id when the join rows do not |
| ServiceController.GetAllServices | controllers/serviceController.js:7-46 | the listing answers 200 with one combined view per service in listing order, and every stored service appears |
| ServiceController.GetServiceBySlug | controllers/serviceController.js:51-80 | an unknown slug gets 404; otherwise the reply is the stored service with that slug, in its combined view |
| ServiceController.CreateService | controllers/serviceController.js:85-136 | a missing name, slug or description gets 400, and an existing slug gets 400, both with no write; an unknown lawyer id makes the create throw (500); otherwise the reply is 201 with the new service and its requested lawyers, and the catalog stays valid |
| ServiceController.InsertService | controllers/serviceController.js:109-121 | the create's write adds only the new service, gives it exactly the requested lawyers, and leaves every other service's lawyers and the lawyer table unchanged |
| ServiceController.UpdatedService | controllers/serviceController.js:144-167 | only truthy name, slug, description and image URL replace the stored values, an uploaded file taking precedence for the image |
| ServiceController.UpdateService | controllers/serviceController.js:141-187 | an unknown id gets 404; a changed slug that another service holds gets 400 "Slug already exists."; a present `lawyerIds` replaces the associations wholesale (an empty list clears them); an absent one leaves them unchanged; no other service changes; the reply carries the service's lawyers as connected after the write, which for a given list are the listed lawyers in the order given |
| ServiceController.DeleteService | controllers/serviceController.js:192-207 | an unknown id gets 404 and changes nothing; otherwise exactly that service record is removed, and the remaining services keep their ids and distinct slugs |
| ServiceController.CreateThenDeleteService | controllers/serviceController.js:192-207 | deleting a service that was just created restores the original service table and frees its slug again |
| LawyerController.ViewOf | controllers/lawyerController.js:22-25 | a lawyer's view is the stored lawyer with one service per join row, in join-row order (the order assumed for an unordered include) |
| LawyerController.GetAllLawyers | controllers/lawyerController.js:6-40 | the listing answers 200 with one view per lawyer in listing order, and every stored lawyer appears |
| LawyerController.GetLawyerById | controllers/lawyerController.js:45-85 | an unknown id gets 404; otherwise the reply is that lawyer's view |
| LawyerController.CreateLawyer | controllers/lawyerController.js:90-153 | a missing name, title or bio gets 400 with no write; an unknown service id makes the create throw (500); otherwise the reply is 201 with the new lawyer (an uploaded file overrides the image URL with "/upload/" plus its name) and its requested services |
| LawyerController.InsertLawyer | controllers/lawyerController.js:109-123 | the create's write adds only the new lawyer, gives it exactly the requested services, creates no row for an empty list, and leaves the rest unchanged |
| LawyerController.UpdatedLawyer | controllers/lawyerController.js:161-186 | a truthy name, title or bio replaces the stored value; the image URL is written whenever it is defined, so null clears it and an empty string is stored |
| LawyerController.UpdateLawyer | controllers/lawyerController.js:158-226 | an unknown id gets 404 with no write; a present `serviceIds` makes the lawyer's services exactly that list (an empty list clears them); an absent one leaves them unchanged; the catalog stays valid and the reply is the updated view |
| LawyerController.ImageUrlRulesDiffer | controllers/lawyerController.js:183-186 | for the same null or empty `imageUrl`, a lawyer update writes it while a service update keeps the stored image |
| LawyerController.DeleteLawyer | controllers/lawyerController.js:231-264 | an unknown id gets 404 and changes nothing; otherwise exactly that lawyer is removed |
| LawyerController.CreateThenDeleteLawyer | controllers/lawyerController.js:231-250 | deleting a lawyer that was just created restores the original lawyer table |
| Pagination.CeilDiv | controllers/postController.js:27 | pages·limit ≥ total; (pages−1)·limit < total when pages > 0; and pages = 0 exactly when total = 0 |
| Pagination.Pages | controllers/postController.js:27 | the page count is null exactly when the limit is 0, and is otherwise the ceiling of total / limit |
| Pagination.Window | controllers/postController.js:12-16 | `skip`/`take` return the rows from position skip on, at most take of them |
| Pagination.PageOf | controllers/postController.js:8-28 | skip = (page−1)·limit; a page of 0 with a positive limit gives a negative skip and a 500; otherwise the page is exactly the window of at most limit rows starting at skip, every row of that range is on it, and the page info is {page, limit, total, pages = ceil(total/limit)} |
| Pagination.RowOnExactlyOnePage | controllers/postController.js:9-27 | with a positive limit every row lies on exactly one page, and that page is within the reported page count |
| PostController.PostBySlug | controllers/postController.js:46 | the slug lookup finds a record exactly when some stored post has that slug |
| PostController.GetAllPosts | controllers/postController.js:6-38 | posts are paged with default page 1 and limit 10; a page of 0 gives 500; otherwise the reply is 200, the page info is {page, limit, number of stored posts, ceil(total/limit)}, and the page is exactly the window of the listing's posts from (page−1)·limit on, at most limit of them |
| PostController.GetPostBySlug | controllers/postController.js:43-64 | an unknown slug gets 404; otherwise the reply is the stored post with that slug |
| PostController.CreatePost | controllers/postController.js:69-114 | a missing title, slug or content gets 400, and an existing slug gets 400, both with no write; otherwise the reply is 201 with the new post; slugs stay unique |
| PostController.CreatedPostFoundBySlug | controllers/postController.js:88-104 | a created post is what a lookup by its slug then returns |
| PostController.UpdatedPost | controllers/postController.js:122-155 | only truthy title, slug, content and image URL replace the stored values |
| PostController.UpdatePost | controllers/postController.js:119-170 | an unknown id gets 404; the slug is checked only when it changes, and a taken one gets 400; no other post changes; slugs stay unique |
| PostController.UpdatePostIdempotent | controllers/postController.js:146-155 | sending the same update twice leaves what sending it once leaves |
| PostController.DeletePost | controllers/postController.js:175-194 | an unknown id gets 404 and changes nothing; otherwise exactly that post is removed, and the remaining posts keep their ids and distinct slugs |
| PostController.CreateThenDeletePost | controllers/postController.js:175-194 | deleting a post that was just created restores the original posts, and a lookup by its slug then answers 404 |
| EnquiryController.EmailShapeIsPattern | controllers/enquiryController.js:19-20 | the computed check accepts exactly the strings that match `^[^\s@]+@[^\s@]+\.[^\s@]+$`: no whitespace, exactly one '@' with a non-empty local part, and a domain with a '.' that is neither its first nor its last character |
| EnquiryController.ShapeGivesPattern | controllers/enquiryController.js:19-20 | every string the computed check accepts matches the pattern |
| EnquiryController.PatternGivesShape | controllers/enquiryController.js:19-20 | every string that matches the pattern passes the computed check |
| EnquiryController.NormalisedFields | controllers/enquiryController.js:30-36 | the stored names, phone and message are the submitted ones trimmed (a second trim changes nothing); `lawId` is stored as sent; the image URL is stored exactly when it is a non-empty string, and null otherwise |
| EnquiryController.NormalisedEmail | controllers/enquiryController.js:32 | an accepted email contains no whitespace, so the trim changes nothing: the stored email is its lower-case form, of the same length |
| EnquiryController.Rejection | controllers/enquiryController.js:11-25 | a missing field is reported before a malformed email, and a submission is accepted exactly when all six fields are present and the email has the required shape |
| EnquiryController.CreateEnquiry | controllers/enquiryController.js:6-63 | a rejected submission gets 400 with no write; an accepted one is stored with trimmed fields, the lower-cased email and a null image when none is given, and the reply is 201 with that row |
| EnquiryController.ChooseField | controllers/enquiryController.js:74-78 | `sortBy` is used when it is one of createdAt, firstName or email; otherwise the sort is by createdAt |
| EnquiryController.ChooseOrder | controllers/enquiryController.js:75-79 | `sortOrder` is used when it is asc or desc; otherwise the order is desc |
| EnquiryController.SortChoiceByName | controllers/enquiryController.js:74-79 | every allowed sort is chosen by its own name, and a non-default choice is only ever made by naming it |
| EnquiryController.GetAllEnquiries | controllers/enquiryController.js:68-108 | enquiries are paged with default page 1 and limit 20 in the whitelisted order; a page of 0 gives 500; otherwise the reply is 200, the page info is {page, limit, number of stored enquiries, ceil(total/limit)}, and the page is exactly the window of that listing's enquiries from (page−1)·limit on |
| EnquiryController.DeleteEnquiry | controllers/enquiryController.js:113-146 | an unknown id gets 404 and changes nothing; otherwise exactly that enquiry is removed, and the remaining enquiries stay keyed by id |
| EnquiryController.CreateThenDeleteEnquiry | controllers/enquiryController.js:113-146 | deleting an enquiry that was just created restores the original enquiries |
| MediaController.GetAllMedia | controllers/mediaController.js:6-27 | the listing answers 200 with every stored record once, in listing order |
| MediaController.CreateMedia | controllers/mediaController.js:32-76 | a missing title, description or link gets 400; the URL is checked only after that, and a link that does not parse gets 400; neither writes; otherwise the reply is 201 with the new record; every stored link still parses |
| MediaController.UpdatedMedia | controllers/mediaController.js:110-118 | only truthy fields replace the stored values |
| MediaController.UpdateMedia | controllers/mediaController.js:81-133 | an unknown id gets 404 before the link is looked at; the link is validated only when one is sent; no other record changes; every stored link still parses |
| MediaController.UpdateMediaIdempotent | controllers/mediaController.js:110-118 | sending the same update twice leaves what sending it once leaves |
| MediaController.DeleteMedia | controllers/mediaController.js:138-171 | an unknown id gets 404 and changes nothing; otherwise exactly that record is removed, the rest stay keyed by id, and every remaining link still parses |
| MediaController.CreateThenDeleteMedia | controllers/mediaController.js:138-171 | deleting a record that was just created restores the original records |
| SiteSettings.GetSettings | routes/siteSettingsRoutes.js:8-16 | the GET answers the first row, or null when the table is empty |
| SiteSettings.PutSettings | routes/siteSettingsRoutes.js:19-54 | with a row present, that row is updated in place (same id) and a flag left out keeps its value; with none, one row is created and each flag left out defaults to true; the table never gains a second row |
| SiteSettings.PutsKeepOneRow | routes/siteSettingsRoutes.js:23-46 | any run of PUTs on a table of at most one row leaves exactly one row, keeping the id of the row first created |
| SiteSettings.ExplicitFalseIsKept | routes/siteSettingsRoutes.js:41-44 | an explicit false is stored as false on both paths, because `??` replaces only a missing flag |
| Routes.AdminTokenRefusedByRoleGuard | middleware/roleMiddleware.js:18-22 | an admin's login token has no `role` claim, so the role guard refuses it with 403 |
| Routes.SubAdminTokenRefusedByAuthGuard | middleware/authMiddleware.js:33-38 | a sub-admin's token has no `adminId` claim, so the admin guard refuses it with 401 "Invalid token format." |
| Routes.SubAdminAdmittedWithoutPermissions | routes/serviceRoutes.js:49-51 | every sub-admin token passes the role guard that protects the sub-admin service and lawyer routes, whatever its flags |
| Routes.PutSettingsRoute | routes/siteSettingsRoutes.js:19-54 | the settings PUT succeeds exactly when the admin guard admits; a refused request gets the guard's reply and leaves the table unchanged |
| Routes.SubAdminCannotPutSettings | routes/siteSettingsRoutes.js:19 | a sub-admin token gets 401 from the settings PUT and leaves the table unchanged, whatever its `settings` flag |
| Routes.ProfileRoute | routes/subAdminRoutes.js:20 | a refused request gets the role guard's status and message; an admitted one gets exactly what the profile handler answers for the claims the guard attached, and only an admitted one can succeed |
| Routes.LoginThenProfile | controllers/subAdminController.js:147-173 | presenting the token a successful sub-admin login signed shows the profile of the sub-admin who logged in |
| Routes.CreateSubAdminRoute | routes/subAdminRoutes.js:15 | the create route as wired: a refused request gets the guard's reply and no write; an admitted one gets exactly what the create handler answers with no user on the request, so every created sub-admin records "unknown" as its creator |
| Routes.CreateRouteLosesCreator | controllers/subAdminController.js:42 | an authenticated admin's valid create request succeeds, and the stored creator is "unknown" |
| Routes.CreateSubAdminRouteAttributed | controllers/subAdminController.js:42 | the corrected route: a refused request gets the guard's reply and no write; an admitted one gets exactly what the create handler answers with the admitted admin as the user, so it succeeds on the same conditions and records the `adminId` of the token presented as the creator |
| Routes.AttributedCreatorIsAdmin | middleware/authMiddleware.js:53-54 | with the correction, the stored creator is the id of the stored admin the guard admitted |

## Left out

- Prisma is replaced by maps. Cascade deletes of join rows are not modelled, so `DeleteLawyer` and `DeleteService` remove only the record. The sort that `orderBy` performs is an `order` or `listing` parameter; only "every key exactly once" is required of it. Database unique constraints are preconditions on the store (`ValidAdmins`, `ValidPosts`, `ValidCatalog`, ...).
- Included relations (`include: { lawyers: ... }` and `include: { services: ... }`) carry no `orderBy` in the code, so the database promises no order for them. The model assumes they come back in join-row (insertion) order. This affects `ConnectedLawyers`, `ConnectedServices`, `ViewOf` and the lawyer lists in the create and update replies.
- Id lists from multipart forms are out. On the upload routes, multer delivers a single `lawyerIds` or `serviceIds` form field as a string rather than an array. A non-empty string has no `.map`, so the create or update throws and the handler answers 500. The model's id lists are always sequences.
- Duplicate ids in one `lawyerIds` or `serviceIds` list are modelled as duplicate join rows; the database's composite-key error for them is not modelled.
- JWT signatures, secrets and clock-based expiry are the `Verifier` oracle. bcrypt salts and cost are the `Hasher`/`Comparer` parameters.
- `new URL` is the `UrlParser` predicate. Its parsing rules are not modelled.
- Case folding is ASCII only: `toLowerCase` and Prisma's `mode: 'insensitive'` beyond ASCII are out.
- `parseInt`, NaN and non-numeric query values are out: `page` and `limit` are naturals. A negative skip is assumed to be refused by the database client (a 500).
- Non-string body values are out: `.trim()` on a number, and truthiness of non-string values. Field values are strings, booleans or id lists.
- `createdAt` columns and the response envelopes (`success`, `message`, `count`) are not modelled. Replies carry their status and payload.
- `getAllSubAdmins` is a plain listing with no branch. The news controller passes the body through. Both are out, with the seed scripts, the server wiring, CORS, static files and multer upload plumbing (an upload is its stored file name).
- Sub-admin create flags and settings PUT flags are `Option<bool>`: the schema is not part of this model, so an explicit null sent for these columns is not modelled.
- `Promise.all` is treated as a sequential map.
- AuthMiddleware.AuthGuard: a database failure during the admin lookup (a 500 from the catch block) is not modelled; the lookup always answers.

## Findings

| source | as written | input that shows it | evidently intended | confidence | as-written member | corrected member |
|---|---|---|---|---|---|---|
| controllers/subAdminController.js:42 | the creator is `req.user?.id`, but the create route (routes/subAdminRoutes.js:15) runs `authMiddleware`, which sets `req.admin` | any valid create request from an authenticated admin | the creator is the id of the admin who made the request | high; not executed | Routes.CreateRouteLosesCreator | Routes.AttributedCreatorIsAdmin |
| controllers/subAdminController.js:58-64 | login looks up the email before it checks the body, and `bcrypt.compare` throws on a missing password | `{ email: "a@b.co" }` with no password: 500 when that email is registered, 401 when it is not | both answers identical, as admin login does by checking both fields first | medium; not executed | SubAdminController.LoginSubAdminRevealsRegisteredEmails | SubAdminController.LoginSubAdminCheckedHidesEmails |
