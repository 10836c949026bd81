# Blog app: route gate, API decisions and client rules

This project models the deterministic core of a small blog application:

- **The route gate.** It runs before every page. It classifies the request path as public, protected or admin, and redirects to `/login` when a protected or admin page is requested without a `token` cookie.
- **The pagination arithmetic.** The three list endpoints share it.
- **The API handlers' decision chains**, each a function of the request and the database it leaves behind:
  - listing and creating posts;
  - the admin account listing and account creation;
  - the admin post listing;
  - reading and updating one's own profile.
- **The Post schema and the seeding script's User schema.** These cover trimming, length limits, the role enumeration, the email pattern `^\S+@\S+\.\S+$`, and the seeding script's "already exists, do nothing" rule.
- **The pages' pure helpers and rules**:
  - `getCookie`, in all its copies;
  - `truncateContent`, with its defaults of 100 and 150;
  - the profile and create-post form checks, the request bodies they send, and the form states after a reply;
  - the dashboard's render predicates;
  - the admin page's access rule, row controls and edit-form transitions;
  - the previous/next pager.

Token verification, password hashing and password comparison are parameters of the handlers:

- `Verifier`, from a token to optional claims;
- `Hasher`;
- `Comparer`.

Mongoose's cast of a string to a MongoDB ObjectId belongs to the driver, so it is a parameter too: `IdCast` gives the id a string denotes, in the spelling stored ids have, or nothing when the string does not cast. Several spellings can denote one id, since hex digits are read without regard to case.

The database is a value, `Db`, holding the account and post collections as sequences in insertion order. Identifiers and the current time are parameters. Every handler that writes returns its response together with the database it leaves behind, so "a rejected request persists nothing" is a postcondition. The list and profile reads return a bare response.

Strings are sequences of characters:

- The JavaScript notion of white space is one predicate. `trim` and the regular-expression class `\S` both use it.
- `split` with a non-empty separator is modelled exactly, including the "exactly one occurrence" case that `getCookie` relies on.

The render rules are predicates read directly off the pages:

- `DashboardPage.ShowAdminCard`: role is `admin` (src/app/dashboard/page.tsx:154);
- `DashboardPage.ShowUpdated`: `updatedAt` differs from `createdAt` (src/app/dashboard/page.tsx:212);
- `AdminPage.AdminAccess`: authenticated with role `admin` (src/app/admin/page.tsx:267);
- `AdminPage.ShowRowControls`: role is not `admin` (src/app/admin/page.tsx:485). This is presentation only; the endpoints do not enforce it.

The lemmas in the table relate these predicates to the handlers.

The modules follow the program:

| module | file | source |
|---|---|---|
| `RouteGate` | route_gate.dfy | the middleware |
| `Auth` | auth.dfy | the token checks every handler starts with |
| `Pagination` | pagination.dfy | the shared page formulas |
| `Ordering` | ordering.dfy | the newest-first sort |
| `Store` | store.dfy | the database queries |
| `PostSchema` | post_schema.dfy | the Post model |
| `EmailFormat`, `UserSchema` | email_format.dfy, user_schema.dfy | the seeding script |
| `PostsApi`, `AdminUsersApi`, `AdminPostsApi`, `ProfileApi` | posts_api.dfy, admin_users_api.dfy, admin_posts_api.dfy, profile_api.dfy | the API routes |
| `Client`, `ProfilePage`, `CreatePage`, `DashboardPage`, `AdminPage` | client.dfy, profile_page.dfy, create_page.dfy, dashboard_page.dfy, admin_page.dfy | the pages |
| `Strings`, `Wrappers` | strings.dfy, wrappers.dfy | support |

## Model

| member | source | states |
|---|---|---|
| RouteGate.Middleware | src/middleware.ts:4-35 | A redirect to `/login` happens only without a non-empty token, and only for a protected or admin path. |
| RouteGate.RedirectIff | src/middleware.ts:10-34 | Redirect happens exactly when the path starts with `/dashboard`, `/profile`, `/posts/create`, `/posts/edit` or `/admin` and the token is absent or empty. |
| RouteGate.TokenNeverInspected | src/middleware.ts:26-34 | With any non-empty token every path passes, whatever the token says. |
| RouteGate.PublicNeverConsulted | src/middleware.ts:14-32 | The decision does not depend on the public classification. `/posts/create` is classified public and is still redirected without a token. |
| RouteGate.PublicRouteCharacterised | src/middleware.ts:8-16 | A path is public iff it is `/`, `/login`, `/register` or `/posts`, or it starts with `/posts/` and contains no `/edit`. |
| RouteGate.PostsDetailIsPublic | src/middleware.ts:14-16 | Any path under `/posts/` without `/edit` is public. |
| RouteGate.AdminRouteIsAdminPrefix | src/middleware.ts:12-24 | Admin classification is equivalent to starting with `/admin`; the two longer entries are redundant. |
| RouteGate.PrefixNotSegment | src/middleware.ts:18-20 | Matching is by raw prefix: `/dashboardx` is protected and is redirected without a token. |
| RouteGate.ClassificationExamples | src/middleware.ts:8-24 | Examples: `/posts/123` is public and passes; `/posts/edit/123` is protected and not public; `/admin/users` is admin; `/dashboard` is protected. |
| Auth.Authenticate | src/app/api/posts/route.ts:57-71 | 401 "Authentication required" exactly when the token is missing or empty. 401 "Invalid token" exactly when verification fails. Otherwise it yields the verified claims. |
| Auth.AuthenticateAdmin | src/app/api/admin/users/route.ts:10-31 | The two 401s as for `Authenticate`, then 403 "Admin access required" exactly when the verified role is not `admin`. |
| Pagination.CeilDiv | src/app/api/posts/route.ts:32 | For a positive limit, `totalPages * limit >= total`. When `total > 0`, also `(totalPages - 1) * limit < total`. `totalPages = 0` iff `total = 0`. |
| Pagination.Paginate | src/app/api/posts/route.ts:32-42 | `currentPage` echoes the page; the item count is the total; the page count is the ceiling bound above. |
| Pagination.Window | src/app/api/posts/route.ts:28-29 | `.skip(skip).limit(limit)`: at most `limit` items, exactly how many the ordered input has from `skip` on, and the k-th item is the input's `skip + k`-th. |
| Pagination.HasNextIffMoreItems | src/app/api/posts/route.ts:15-40 | `hasNextPage` holds exactly when items remain after this page (`skip + limit < total`). |
| Pagination.HasPrevIffSkips | src/app/api/posts/route.ts:15-41 | `hasPrevPage` holds exactly when this page skips some items. |
| Pagination.PageNonEmptyIffInRange | src/app/api/posts/route.ts:15-32 | A page holds some item exactly when its number is at most `totalPages`. |
| Pagination.NewestPage | src/app/api/posts/route.ts:25-30 | One page of a list endpoint: newest first, all taken from the input, and exactly as many items as remain after the skip, up to `limit`. |
| Pagination.WindowOfSorted | src/app/api/posts/route.ts:27-29 | A window of a newest-first permutation is newest first and holds only input items. |
| Pagination.PagesArePrefix | src/app/api/posts/route.ts:15-30 | Pages 1 to k concatenated are exactly the first `k * limit` items, in order. |
| Pagination.AllPagesListEverything | src/app/api/posts/route.ts:15-32 | Reading pages 1 to `totalPages` lists every item exactly once, in order. |
| Pagination.PagesOfOneOrder | src/app/api/posts/route.ts:25-30 | Page queries that all see the same arrangement return that arrangement's pages. |
| Pagination.SeparateQueriesListEverything | src/app/api/posts/route.ts:23-32 | Pages 1 to `totalPages`, each read by its own query with any newest-first arrangement, list every item exactly once in sorted order, provided items with equal keys are identical. |
| Pagination.TiedPagesMayRepeat | src/app/api/posts/route.ts:25-30 | Without that proviso two different items with equal keys can be listed as the first item twice and the second never, with each query's arrangement newest first. |
| Ordering.Insert | src/app/api/posts/route.ts:27 | Inserting into a newest-first sequence keeps it newest first and adds exactly that element. |
| Ordering.SortNewestFirst | src/app/api/posts/route.ts:27 | `sort({ createdAt: -1 })`: the result is newest first and a permutation of the input. |
| Ordering.SliceNewestFirst | src/app/api/posts/route.ts:27-29 | Any slice of a newest-first sequence is newest first. |
| Ordering.NewestFirstUnique | src/app/api/posts/route.ts:27 | When items with equal keys are identical, a collection has exactly one newest-first arrangement. |
| Ordering.TiesOfPermutation | src/app/api/posts/route.ts:27 | Rearranging a collection keeps its ties identical. |
| Store.Public | src/app/api/admin/users/route.ts:42 | `select('-password')` keeps every field but the password unchanged. |
| Store.FindById | src/app/api/user/profile/route.ts:78 | Finds an account with the requested id, or reports none when no account has it. |
| Store.PostsBy | src/app/api/user/profile/route.ts:37 | A post is in the author's posts iff it is stored with that author. |
| Store.PostsByMultiset | src/app/api/user/profile/route.ts:37 | The author filter keeps every matching post as often as it is stored and drops every other one. |
| Store.SaveAccount | src/app/api/user/profile/route.ts:123 | Saving overwrites the account with the saved id and keeps every other account in place. |
| Store.SaveUnchanged | src/app/api/user/profile/route.ts:123 | Saving an unmodified account with a unique id leaves the collection as it was. |
| Store.FindAfterSave | src/app/api/user/profile/route.ts:78-123 | After a loaded account is saved, looking up its id finds the saved version. |
| Strings.Split | src/app/profile/page.tsx:80 | `split` always yields at least one piece. |
| Strings.SplitInTwo | src/app/profile/page.tsx:80-81 | Splitting yields exactly two pieces iff the separator occurs exactly once. The two pieces are then the text before and after that occurrence. |
| Strings.FirstPieceAtChar | src/app/profile/page.tsx:81 | The first piece of a split on `;` is the longest prefix without `;`. |
| Strings.Trim | src/models/Post.ts:16 | `trim` never lengthens. Its result neither starts nor ends with white space. It sits in the input at the offset where the leading white space ends, with only white space before and after it. |
| Strings.TrimPieces | src/models/Post.ts:16 | Trimming the start and then the end leaves a piece of the input framed by white space. |
| Strings.TrimEmptyIffAllWhitespace | src/models/Post.ts:13-18 | A string trims to empty exactly when all its characters are white space. |
| Strings.TrimIdempotent | src/models/Post.ts:16 | Trimming twice is trimming once. |
| Strings.ToLower | scripts/create-admin.js:16 | Lowercasing keeps the length and maps each character separately. |
| Strings.TrimmedLowerHasNoCapital | scripts/create-admin.js:16-17 | A lowercased, trimmed email has no capital letter. |
| PostSchema.TitleError | src/models/Post.ts:13-18 | "Title is required" iff the trimmed title is empty; "Title cannot be more than 100 characters" iff the trimmed title is longer than 100. |
| PostSchema.ContentError | src/models/Post.ts:19-23 | "Content is required" iff the trimmed content is empty. |
| PostSchema.AuthorError | src/models/Post.ts:24-28 | "Author is required" iff the author reference is empty. |
| PostSchema.ValidatePost | src/models/Post.ts:11-33 | A post validates iff its trimmed title is 1 to 100 characters, its trimmed content is non-empty and it has an author. Title and content are stored trimmed. Each failing field's message is reported. |
| PostSchema.UntrimmedLimitSuffices | src/models/Post.ts:16-17 | A title within 100 characters before trimming never fails the length limit. |
| PostSchema.StoredFieldsRevalidate | src/models/Post.ts:11-28 | Stored fields validate again and are unchanged by a second trim. |
| PostSchema.BlankTitleRequired | src/models/Post.ts:13-18 | A title of spaces is refused with "Title is required". |
| EmailFormat.EmailMatches | scripts/create-admin.js:18 | Decides `^\S+@\S+\.\S+$` exactly: no white space, and an `@` after at least one character, followed after at least one character by a `.` that is not last. |
| UserSchema.NameError | scripts/create-admin.js:6-11 | The name passes iff it is 1 to 50 characters; too long is reported as such. |
| UserSchema.EmailError | scripts/create-admin.js:12-19 | The email passes iff it matches the pattern. |
| UserSchema.PasswordError | scripts/create-admin.js:20-24 | The password passes iff it has at least 6 characters; a short non-empty one is reported as too short. |
| UserSchema.RoleError | scripts/create-admin.js:25-29 | The role passes iff it is `admin` or `user`. |
| UserSchema.Normalise | scripts/create-admin.js:9-28 | The setters trim the name, lowercase and trim the email, and default the role to `user`. |
| UserSchema.ValidateUser | scripts/create-admin.js:5-32 | An accepted document is the normalised one; a refused one has at least one error. |
| UserSchema.ValidateUserAccepts | scripts/create-admin.js:5-32 | Acceptance holds iff all of these hold: the trimmed name is 1 to 50 characters; the lowercased, trimmed email matches the pattern; the password has at least 6 characters; the role is absent, `admin` or `user`. |
| UserSchema.ValidateUserReportsLongName | scripts/create-admin.js:10 | A name longer than 50 after trimming is refused as too long. |
| UserSchema.ValidateUserReportsShortPassword | scripts/create-admin.js:23 | A non-empty password shorter than 6 is refused as too short. |
| UserSchema.ValidatedEmailTrimmed | scripts/create-admin.js:17 | An accepted email is trimmed. |
| UserSchema.ValidatedEmailIsLower | scripts/create-admin.js:16 | An accepted email has no capital letter. |
| UserSchema.Seed | scripts/create-admin.js:42-68 | An existing account with the seed's email means nothing changes. Otherwise at most the one normalised account, holding the hashed password, is appended. |
| UserSchema.AdminSeedNormal | scripts/create-admin.js:42-47 | The administrator's name and email are unchanged by the setters, the email matches the pattern and the name fits. |
| UserSchema.SeedAddsAdminWhenFree | scripts/create-admin.js:49-68 | Without that email present, the administrator is added exactly when the hash meets the schema's length rule. |
| UserSchema.SeedIdempotent | scripts/create-admin.js:49-56 | Seeding twice equals seeding once, for an email already in normal form. |
| UserSchema.AdminSeedIdempotent | scripts/create-admin.js:49-56 | Running the seeding script twice equals running it once. |
| PostsApi.Selected | src/app/api/posts/route.ts:17-21 | With a filter, exactly the posts whose author is the filter's id. Without one, every post. |
| PostsApi.AuthorFilter | src/app/api/posts/route.ts:13-21 | No filter exactly when `author` is absent or empty. Otherwise the filter is the id the parameter casts to, as Mongoose casts it for the ObjectId `author` field of src/models/Post.ts:6. |
| PostsApi.PageOfPosts | src/app/api/posts/route.ts:23-42 | The count and the listing use the same query. The page holds exactly as many posts as remain after the skip, up to `limit`, newest first, all from the query. The pagination block is that of `page`, `limit` and the count: `totalPages = ceil(total / limit)`, `hasNextPage ⇔ page < totalPages`, `hasPrevPage ⇔ page > 1`. |
| PostsApi.ListPosts | src/app/api/posts/route.ts:6-49 | 500 "Internal server error" exactly when a non-empty `author` does not cast to an ObjectId, since the count query then throws. Otherwise 200. The page holds at most `limit` stored posts, newest first, all by the author the parameter casts to when one is given. `totalItems` counts the selection and `currentPage` echoes the page. |
| PostsApi.SpellingsListAlike | src/app/api/posts/route.ts:19-30 | Two `author` spellings that cast to the same id, such as upper- and lower-case hex, give the same listing. |
| PostsApi.CastSpellingSelects | src/app/api/posts/route.ts:19-23 | For a castable `author`, `totalItems` is the number of stored posts whose author is the id it casts to, however the parameter is spelled. |
| PostsApi.ListedPagesArePages | src/app/api/posts/route.ts:25-30 | The endpoint's pages 1 to k are pages 1 to k of the selection sorted newest first. |
| PostsApi.ListedPage | src/app/api/posts/route.ts:25-30 | Page k of the endpoint is the k-th window of the sorted selection. |
| PostsApi.ListingCoversSelection | src/app/api/posts/route.ts:23-32 | Pages 1 to `totalPages` are separate queries, and the database may order equal `createdAt` values differently in each. When posts created at the same instant are identical, the pages read this way equal the endpoint's pages and hold each selected post exactly as often as it is stored, newest first. |
| PostsApi.TiedPostsMayRepeat | src/app/api/posts/route.ts:25-30 | Two different posts with the same `createdAt` can make the page queries list one twice and the other never. |
| PostsApi.CreatePost | src/app/api/posts/route.ts:53-111 | The checks run in order: 401, 401, 400 "Title and content are required", then 400 on a title over 100. A failed token check is answered with its own status and text. On success the status is 201, the author is the token's id, title and content are stored trimmed, and the post is appended. Every failure leaves the database unchanged. |
| PostsApi.CreateSucceedsIff | src/app/api/posts/route.ts:75-96 | After the handler's checks, the save succeeds exactly when the trimmed title and content are non-empty and the token carries an id. |
| PostsApi.TitleLengthBoundary | src/app/api/posts/route.ts:82-87 | A 100-character title passes the length check; a 101-character title fails it. |
| PostsApi.BlankTitleIsServerError | src/app/api/posts/route.ts:75-109 | A title of spaces passes the handler's presence check and is refused by the schema, which surfaces as a 500. |
| AdminUsersApi.PublicAll | src/app/api/admin/users/route.ts:41-42 | Each listed account is the stored one without its password. |
| AdminUsersApi.PublicAllNewestFirst | src/app/api/admin/users/route.ts:41-43 | Hiding the password keeps the newest-first order. |
| AdminUsersApi.PublicAllFrom | src/app/api/admin/users/route.ts:41-46 | A page drawn from the stored accounts shows only what the public listing of all of them shows. |
| AdminUsersApi.PublicAllConcat | src/app/api/admin/users/route.ts:41-42 | Hiding passwords works page by page. |
| AdminUsersApi.ListUsers | src/app/api/admin/users/route.ts:6-59 | Fails exactly as the admin gate does. Otherwise 200 with the accounts newest first, each shown as in the public listing of all accounts. The page holds exactly as many accounts as remain after the skip, up to `limit`. The pagination block is that of `page`, `limit` and the account count, with both flag iffs. |
| AdminUsersApi.ListedUserPage | src/app/api/admin/users/route.ts:39-46 | Page k of the account listing shows the k-th window of the accounts sorted newest first. |
| AdminUsersApi.ListedUserPagesArePages | src/app/api/admin/users/route.ts:39-46 | Pages 1 to k of the account listing show pages 1 to k of the sorted accounts. |
| AdminUsersApi.ListingCoversAccounts | src/app/api/admin/users/route.ts:39-48 | Each page is its own query with any newest-first arrangement. When accounts created at the same instant are identical, pages 1 to `totalPages` read every stored account exactly as often as it is stored, newest first, and show each without its password. |
| AdminUsersApi.CreateUser | src/app/api/admin/users/route.ts:69-153 | The checks run in order: the gate, then 400 on a missing field, then 400 on a password under 6, then 409 on a used email. A failed gate is answered with its own status and text. On success the status is 201 and one account is appended with the hashed password and the role defaulting to `user`; the response carries no password. Every failure leaves the database unchanged. |
| AdminUsersApi.CreateTwiceConflicts | src/app/api/admin/users/route.ts:112-118 | Once an account is created, another request with the same email is refused with 409. |
| AdminUsersApi.PasswordLengthBoundary | src/app/api/admin/users/route.ts:105-110 | A 6-character password passes the length rule; a 5-character one fails it. |
| AdminPostsApi.ListAllPosts | src/app/api/admin/posts/route.ts:6-59 | Fails exactly as the admin gate does. Otherwise 200 with posts newest first, from all posts, exactly as many as remain after the skip, up to `limit`. The pagination block is that of `page`, `limit` and the post count, with both flag iffs. |
| AdminPostsApi.AdminListingIsPublicListing | src/app/api/admin/posts/route.ts:39-58 | For an admin, the admin listing equals the public listing without an author filter. |
| ProfileApi.GetProfile | src/app/api/user/profile/route.ts:7-52 | The two 401s are exactly those of `Authenticate`, texts included. Then 404 exactly when the account is gone, and 200 whenever it exists, with the account without its password, plus exactly the posts whose author is the token's id, newest first. |
| ProfileApi.UpdateAccount | src/app/api/user/profile/route.ts:86-121 | The name is replaced iff one is given. An empty or unchanged email is ignored; a different one that is taken gives 409. The password changes only when both fields are given: 400 on a wrong current password, then 400 on a new one under 6, else the hash of the new one. |
| ProfileApi.UpdateProfile | src/app/api/user/profile/route.ts:54-146 | The two 401s are exactly those of `Authenticate`, texts included. Then 404 exactly when the account is gone. Once it is found, a refusal of `UpdateAccount` (409 or 400) is the response, status and text, and an accepted edit answers 200. A refusal saves nothing, not even a name set before it. Success saves the edited account and returns it without its password. |
| ProfileApi.OnePasswordFieldIgnored | src/app/api/user/profile/route.ts:104 | Giving only one password field changes no password and cannot be refused over it. |
| ProfileApi.EmailCheckedBeforePassword | src/app/api/user/profile/route.ts:91-111 | A taken email is reported before a wrong current password. |
| ProfileApi.EmptyUpdateLeavesStore | src/app/api/user/profile/route.ts:86-123 | An empty request leaves the database as it was, when account ids are unique. |
| ProfileApi.UpdateThenGet | src/app/api/user/profile/route.ts:28-123 | After a successful update, the profile shows the account the update returned. |
| Client.GetCookie | src/app/profile/page.tsx:78-83 | `None` unless `"; name="` occurs exactly once in `"; " + cookie`. Otherwise the text after it up to the next `;`, or `None` when that is empty. The copies at src/app/posts/create/page.tsx:69-74 and src/app/dashboard/page.tsx:61-66 are the same. |
| Client.CookieFoundFirst | src/app/dashboard/page.tsx:61-66 | The first cookie of the header is found when its name occurs nowhere else. |
| Client.Truncate | src/app/profile/page.tsx:169-172 | Content within the limit is unchanged. Longer content becomes its first `maxLength` characters followed by `...`. The same holds for the copies in the dashboard, admin page and listing. |
| Client.TruncateBound | src/app/dashboard/page.tsx:76-79 | A preview is at most the limit plus 3 long. A shortened preview is exactly 103 characters at the default of 100 and 153 at the listing's default of 150. |
| Client.ListingShowsMore | src/app/posts/page.tsx:60-63 | The listing's preview begins with everything the 100-character preview of the other pages shows. |
| Client.TruncateIdempotent | src/app/posts/page.tsx:60-63 | Shortening a preview again changes nothing. |
| Client.TruncateForgetsTail | src/app/admin/page.tsx:262-265 | Long contents that agree on their first `maxLength` characters have the same preview. |
| Client.PagerOf | src/app/posts/page.tsx:140-160 | The pager is shown iff `totalPages > 1`. Previous is disabled iff there is no previous page, and Next iff there is no next page. |
| Client.AfterClick | src/app/posts/page.tsx:142-157 | An enabled Previous moves one page back and an enabled Next one page on; a disabled button changes nothing. |
| Client.PagerShownIffOverflow | src/app/admin/page.tsx:510-531 | The pager appears exactly when the items do not fit on one page. |
| Client.ClickStaysInRange | src/app/admin/page.tsx:610-631 | Clicking an enabled button on a page within range leads to a page of at least 1 that holds items. |
| ProfilePage.CheckForm | src/app/profile/page.tsx:98-115 | The password rules apply only when either password field is filled. Refusals come in order: current password missing, new password missing, new password under 6, confirmation differs. |
| ProfilePage.RequestBody | src/app/profile/page.tsx:127-135 | Name and email are always sent. Both password fields are sent exactly when a new password is filled in. |
| ProfilePage.AfterSuccess | src/app/profile/page.tsx:144-149 | After success the three password fields are cleared and name and email are kept. |
| ProfilePage.CheckedFormMeetsServerRules | src/app/profile/page.tsx:98-135 | A form the page lets through changes the password exactly when a new one is filled in, and the server never refuses it for length. |
| ProfilePage.ClearedFormKeepsPassword | src/app/profile/page.tsx:144-149 | A cleared form sends no password fields, so the next update keeps the password. |
| CreatePage.CheckForm | src/app/posts/create/page.tsx:32-40 | "Title and content are required" iff either is blank once trimmed. After that, the title as typed over 100 is refused. |
| CreatePage.RequestBody | src/app/posts/create/page.tsx:52 | The body is exactly title and content, untrimmed. |
| CreatePage.OutcomeOf | src/app/posts/create/page.tsx:55-61 | On success the page navigates to `/posts/` followed by the new id. Otherwise it shows the server's message, or "Failed to create post" when that is empty. |
| CreatePage.CheckedFormIsCreated | src/app/posts/create/page.tsx:32-57 | A form the page lets through, sent with a verified token that carries an id, is saved, and the page opens `/posts/` plus the new id. |
| DashboardPage.LatestPost | src/app/dashboard/page.tsx:238 | "None" for no posts. For a newest-first list, the latest creation time is that of some post and no post is newer. |
| DashboardPage.ShownRole | src/app/dashboard/page.tsx:41-49 | The role the card tests is present exactly when the profile loads, and it is the role of a stored account with the viewer's id. |
| DashboardPage.NewPostNotUpdated | src/app/dashboard/page.tsx:212 | A freshly created post does not show the "Updated" line. |
| DashboardPage.AdminCardMatchesGate | src/app/dashboard/page.tsx:41-49 | The card tests the role the profile endpoint returns. Without a profile no card is shown. While the stored role equals the token's, the card shows exactly when the admin endpoints accept the viewer. |
| DashboardPage.StaleRoleDisagrees | src/app/dashboard/page.tsx:154 | When the stored role and the token's differ, the card and the endpoints disagree: a stored admin with a `user` token sees the card and is refused; a stored user with an admin token is let in without the card. |
| AdminPage.AccessMatchesGate | src/app/admin/page.tsx:267-280 | For a verified viewer, the dashboard opens exactly when the admin endpoints accept the viewer's role; everyone else gets the access-denied view. |
| AdminPage.StartEdit | src/app/admin/page.tsx:120-128 | Starting an edit copies name, email and role, and blanks the password. |
| AdminPage.AfterUpdate | src/app/admin/page.tsx:130-154 | A successful update closes the editor and resets the form to a blank `user` form. A failure, or having no account under edit, changes nothing. |
| AdminPage.Cancel | src/app/admin/page.tsx:456-459 | Cancel closes the editor and blanks the form. |
| AdminPage.EditRoundTrip | src/app/admin/page.tsx:120-145 | Editing and then succeeding or cancelling returns to the idle state. |
| AdminPage.StartPostEdit | src/app/admin/page.tsx:176-182 | Starting a post edit copies title and content. |
| AdminPage.AfterPostUpdate | src/app/admin/page.tsx:184-208 | A successful post update closes the editor and blanks the form; otherwise nothing changes. |
| AdminPage.AfterCreate | src/app/admin/page.tsx:241-244 | A successful creation closes the panel and blanks the form; a failed one leaves both as they were. |
| AdminPage.CreateBody | src/app/admin/page.tsx:230-237 | The creation form sends its four fields as they are. |
| AdminPage.CreatedRoleIsFormRole | src/app/admin/page.tsx:230-244 | An account created from the form gets the role chosen in the form, or `user` when the form's role is blank. |

## Left out

- **Token and password primitives.** Token signing, expiry (the `exp` claim of section 4.1.4 of RFC 7519), salt rounds and bcrypt are not modelled. Verification, hashing and comparison are parameters. src/lib/auth.ts is not part of this model.
- **Query parsing and rounding.**
  - `parseInt` and NaN are not modelled: the list endpoints require a page and a limit of at least 1.
  - `Math.ceil` over floating point is integer ceiling division.
- **The framework.** The middleware's path `matcher` configuration is not modelled, since the framework decides which requests reach the gate.
- **Database behaviour.**
  - Connections are not modelled.
  - `populate` is not modelled: posts carry the author's id.
  - Text indexes are not modelled.
  - Races on the unique email index are not modelled.
  - Storage failures that end in the handlers' catch-all 500 are not modelled. Two 500s are modelled: the Post schema's refusal, and the failed ObjectId cast of the post listing's `author` filter.
  - The ObjectId casts of a token's id, in `findById` and in a new post's author, are not modelled. The server issues tokens only for stored accounts, so those casts succeed.
- **Account schema.** src/models/User.ts is not part of this model. Admin account creation and profile saves store the fields the handler sets, without that schema's validation or setters. Email uniqueness is exact string equality.
- **Error text.** The text of the combined validation error is not modelled. The 500s that are modelled carry "Internal server error", the text of the handlers' catch-all.
- **Seeding script plumbing.** Connecting, logging and `process.exit` in scripts/create-admin.js are left out.
- **Request bodies.** Bodies are modelled as optional string fields. A body that is not valid JSON makes `request.json()` throw, and the catch-all answers 500; this is not modelled. Fields of other JSON types, such as a numeric `password` whose `.length` is undefined and so passes the length check, are not modelled either.
- **Page mechanics.** JSX rendering, `fetch`, navigation, React state timing, loading flags and date formatting are left out. Timestamps are integers rather than the ISO strings the pages compare.
- **Admin page requests.** The delete confirmation and the admin page's update and delete requests are not modelled. Only the page's state transitions around those requests are. The `/api/admin/users/[id]` and `/api/admin/posts/[id]` routes are not part of this model.
- **String encoding.** Strings are sequences of characters, not of UTF-16 code units.
- Strings.ToLower: lowercases only the ASCII letters A to Z. This is weaker than the Unicode case mapping `toLowerCase` performs, which no character-by-character definition reproduces.
- ProfileApi.UpdateAccount: keeps `updatedAt` as loaded. The timestamps option's refresh of `updatedAt` on save is not modelled, because the clock is not a parameter of this handler.
- PostsApi.ListPosts: breaks ties in `createdAt` by store order, because the model's sort is stable. MongoDB fixes no order among documents with equal sort keys, and each page is a query of its own. AdminPostsApi.ListAllPosts, AdminUsersApi.ListUsers with AdminUsersApi.ListedUserPage and AdminUsersApi.ListedUserPagesArePages, PostsApi.ListedPage, PostsApi.ListedPagesArePages and ProfileApi.GetProfile fix the same store order where MongoDB leaves it open.
- AdminUsersApi.ListUsers: breaks ties in `createdAt` among accounts by store order, as PostsApi.ListPosts does for posts.
- AdminPostsApi.ListAllPosts: breaks ties in `createdAt` by store order, as PostsApi.ListPosts does.
- ProfileApi.GetProfile: lists the caller's posts with ties in `createdAt` in store order, which MongoDB does not promise.
- PostsApi.ListingCoversSelection: lets every page query use its own newest-first arrangement, and holds only when posts created at the same instant are identical. `PostsApi.TiedPostsMayRepeat` shows a post listed twice and another never when two different posts share a `createdAt`.
- AdminUsersApi.ListingCoversAccounts: has the same proviso for accounts created at the same instant.
- AdminPage.AccessMatchesGate: takes the role to be the token's. The page reads it from the auth context, and src/contexts/AuthContext.tsx is not part of this model. If that role is the stored one, the page and the endpoints can disagree, as `DashboardPage.StaleRoleDisagrees` shows for the dashboard.
- Client.Truncate: states "unchanged when within the limit" in one direction only. A 103-character content ending in `...` is also returned unchanged at limit 100.
