# Blog moderation core, modelled in Dafny

This project models the server logic of a small set of Next.js applications
and proves properties about it:

- **The blog app with moderation** (`ntp-blog-app`). Signed-in users write posts. Every new post
  starts as PENDING and an administrator approves or rejects it. The model covers:
  - the `/api/blogs` handlers (create, and a listing that depends on who is asking);
  - the admin handlers for posts, users and statistics;
  - the admin predicates of the auth helper and the middleware's role normalisation;
  - the history table (a key-value store of one status record per post);
  - the unauthenticated `/api/post` CRUD routes and the paginated `/blog` route;
  - the slug generator of the create page;
  - the pure helpers of the post list item;
  - the moderation page's guards and local state.
- **An in-memory post store** (`api-blog`). Its Jest suite is restated as a proved scenario.
- **The employee app** (`mysql-prisma`): per-department salary grouping, and name validation for departments.

The modelling choices:

- The relational store is a class, `Entities.BlogDb`, with a `seq` per table.
  - Every handler that writes is a method with a `modifies` clause. Its postcondition states the whole new table.
  - Every read-only handler is a function.
- A session is an `Option<Identity>`: `None` stands for "no session or no user" (`Claims`).
- A JSON body is `Option<...>`: `None` stands for a body that does not parse.
- Absent or empty string fields are `""`, which is how the handlers' `||` and `!x` tests treat them.
- Ids the store or the clock generates are parameters. For blog ids, a precondition says the id is fresh.
- JavaScript semantics are spelled out in `Strings`:
  - `includes` on a string is a substring test;
  - `trim` uses the ECMAScript white-space set;
  - `parseInt` gives `None` for NaN;
  - `split`, `substring` and `toLowerCase` are on ASCII.
- A Prisma `where` or `orderBy` is `Entities.FindMany`. It is an insertion sort (`Sorting`) of the
  matching rows, and its contract is what the query promises:
  - the rows come in the requested order;
  - the rows are exactly the matching ones, with their multiplicities.

  Ties are left unspecified, as in the database.
- A status string that is not an enum value makes the store throw, so the handler answers 500.

## Model

| member | source | states |
|---|---|---|
| Strings.Lower | ntp-blog-app/app/api/blogs/route.ts:61 | `toLowerCase` keeps the length and maps each character to its ASCII lower case |
| Strings.LowerIdempotent | ntp-blog-app/app/blog/create/page.tsx:50 | lowercasing twice is lowercasing once |
| Strings.Prefix | ntp-blog-app/app/api/blogs/route.ts:59 | `substring(0, n)` is a prefix of length min(n, length) |
| Strings.TrimStart | mysql-prisma/app/api/departments/route.js:19 | only white space is removed in front, and the result does not start with white space |
| Strings.TrimEnd | mysql-prisma/app/api/departments/route.js:19 | only white space is removed at the end, and the result does not end with white space |
| Strings.TrimSpec | ntp-blog-app/app/admin/blogs/page.tsx:151-156 | `trim` returns a contiguous piece of the input with non-space ends, only white space cut off |
| Strings.TrimIdempotent | mysql-prisma/app/api/departments/route.js:28 | trimming a trimmed string changes nothing |
| Strings.OccursContains | ntp-blog-app/app/api/admin/blogs/route.ts:15-16 | a needle occurring at any index makes string `includes` true |
| Strings.ContainsAt | ntp-blog-app/app/api/admin/blogs/route.ts:15-16 | string `includes` holds iff the needle occurs at some index |
| Strings.Split | ntp-blog-app/app/components/ListBlogItem.tsx:21 | `split` gives at least one piece and no piece holds the separator |
| Strings.SplitLength | ntp-blog-app/app/components/ListBlogItem.tsx:21 | the number of pieces is the number of separators plus one |
| Strings.JoinSplit | ntp-blog-app/app/components/ListBlogItem.tsx:21 | joining the pieces with the separator gives back the string |
| Strings.LocalPart | ntp-blog-app/app/api/blogs/route.ts:49 | `email.split('@')[0]` is the prefix before the first '@' |
| Strings.Decimal | api-blog/app/api/blog/route.js:94 | the decimal form of a natural is a non-empty digit string |
| Strings.DecimalValue | api-blog/app/api/blog/route.js:74 | the digits of the decimal form denote the number |
| Strings.ParseIntDigits | api-blog/app/api/blog/route.js:74 | `parseInt` of a string of decimal digits is the number they denote |
| Strings.ParseIntMinus | api-blog/app/api/blog/route.js:74 | a leading `-` before a number negates what `parseInt` reads |
| Strings.IntString | api-blog/app/api/blog/route.js:94 | a number interpolated into a template is non-empty |
| Strings.ParseIntDecimal | api-blog/app/api/blog/route.js:74 | `parseInt(String(n)) == n` for every integer |
| Numbers.CeilDiv | ntp-blog-app/app/blog/route.ts:99 | `Math.ceil(total / limit)`: the least r with r·limit ≥ total; zero iff total is zero |
| Numbers.CeilDivMonotone | ntp-blog-app/app/components/ListBlogItem.tsx:21 | the ceiling quotient is monotone in the dividend |
| Sorting.Insert | ntp-blog-app/app/api/blogs/route.ts:168-170 | inserting into a sorted list keeps it sorted and adds exactly that element |
| Sorting.Sort | ntp-blog-app/app/api/admin/blogs/route.ts:43-46 | an `orderBy` result is sorted by the order and a permutation of its input |
| Sorting.TakeSorted | ntp-blog-app/app/api/admin/users/route.ts:47-50 | the first k of a sorted filtered list pass the filter, and every passing element left out comes after each of them |
| Sorting.SortedHead | ntp-blog-app/app/api/admin/users/route.ts:47-50 | the head of a sorted list comes before every other element |
| Slug.RunLength | ntp-blog-app/app/api/blogs/route.ts:61 | the length of the maximal leading run of non-slug characters: everything before it is non-slug, and the next character, if any, is a slug character |
| Slug.SkipRun | ntp-blog-app/app/api/blogs/route.ts:61 | skipping a run of non-slug characters leaves a suffix keeping all slug characters |
| Slug.ReplaceRuns | ntp-blog-app/app/api/blogs/route.ts:61 | `replace(/[^a-z0-9]+/g, sep)`: empty iff the input is empty, and a leading separator iff the input starts with a non-slug character |
| Slug.ReplaceRunsShape | ntp-blog-app/app/api/blogs/route.ts:61 | the result has only slug characters and separators, no doubled separator, and the input's slug characters in order |
| Slug.ReplaceRunsLast | ntp-blog-app/app/api/blogs/route.ts:61 | a trailing separator iff the input ends with a non-slug character |
| Slug.ReplaceRunsWord | ntp-blog-app/app/api/blogs/route.ts:61 | a word of slug characters is copied unchanged in front of whatever the rest becomes |
| Slug.ReplaceRunsGap | ntp-blog-app/app/api/blogs/route.ts:61 | a maximal non-empty run of non-slug characters becomes exactly one separator |
| Slug.ReplaceRunsRun | ntp-blog-app/app/api/blogs/route.ts:61 | a word followed by a maximal non-slug run becomes the word and exactly one separator, then the rest |
| Slug.SkipGap | ntp-blog-app/app/api/blogs/route.ts:61 | skipping a run stops exactly at the next slug character |
| Slug.DropTrailingAppend | ntp-blog-app/app/api/post/route.ts:26 | `-+$` on a concatenation cuts into the left part only when the right part is all separators |
| Slug.CollapseWord | ntp-blog-app/app/blog/create/page.tsx:51-52 | a word of slug characters is its own slug, trimmed or not |
| Slug.CollapseLeadingGap | ntp-blog-app/app/blog/create/page.tsx:51-52 | with trimming, a leading non-slug run is dropped entirely |
| Slug.CollapseTrimmedRun | ntp-blog-app/app/blog/create/page.tsx:51-52 | with trimming, a word and a maximal non-slug run become the word and one separator before the slug of the rest, or the word alone when the rest has no slug character |
| Slug.DropLeading | ntp-blog-app/app/api/post/route.ts:26 | `^-+` removal cuts only separators and leaves no leading separator |
| Slug.DropTrailing | ntp-blog-app/app/api/post/route.ts:26 | `-+$` removal cuts only separators and leaves no trailing separator |
| Slug.TrimSep | ntp-blog-app/app/blog/create/page.tsx:52 | the trimmed slug neither starts nor ends with the separator |
| Slug.KeepAppend | ntp-blog-app/app/api/blogs/route.ts:61 | the slug characters of a concatenation are those of the parts |
| Slug.KeepNone | ntp-blog-app/app/api/blogs/route.ts:61 | a string of non-slug characters keeps no slug character |
| Slug.KeepTrimSep | ntp-blog-app/app/api/post/route.ts:26 | stripping separators keeps every slug character |
| Slug.TrimSepClean | ntp-blog-app/app/api/post/route.ts:26 | stripping separators keeps a clean slug clean |
| Slug.LowerClean | ntp-blog-app/app/blog/create/page.tsx:50 | lowercasing a slug changes nothing |
| Slug.ReplaceRunsClean | ntp-blog-app/app/blog/create/page.tsx:51 | replacing runs in a clean slug changes nothing |
| Slug.TrimSepNoop | ntp-blog-app/app/blog/create/page.tsx:52 | stripping a slug without end separators changes nothing |
| Slug.SlugifySpec | ntp-blog-app/app/blog/create/page.tsx:48-53 | a slug has only [a-z0-9] and the separator, no doubled separator, the title's lowercased [a-z0-9] characters in order; when trimmed, no end separator; when untrimmed, empty iff the title is, and a separator at each end iff the lowercased title has a non-slug character there |
| Slug.SlugifyTrimmed | ntp-blog-app/app/api/post/route.ts:23-26 | the trimmed slug's character set, no doubled separator, kept characters and separator-free ends |
| Slug.SlugifyUntrimmed | ntp-blog-app/app/api/blogs/route.ts:61 | the untrimmed slug's character set, no doubled separator, kept characters, and a separator at either end exactly where the lower-cased title has a non-slug character |
| Slug.SlugifyIdempotent | ntp-blog-app/app/blog/create/page.tsx:48-53 | slugifying a slug changes nothing |
| Slug.TrimmedIsStrippedUntrimmed | ntp-blog-app/app/api/post/route.ts:23-26 | the trimmed slug is the untrimmed slug with end separators stripped |
| Auth.RolesOrEmpty | ntp-blog-app/app/lib/auth.ts:11 | `claim \|\| []` turns an absent or empty-string claim into an array and keeps any other claim |
| Auth.IsAdminFromUser | ntp-blog-app/app/lib/auth.ts:10-14 | true iff there is a user whose role is 'ADMIN' or whose roles claim is an array containing 'ADMIN' |
| Auth.IsAdmin | ntp-blog-app/app/lib/auth.ts:3-8 | the same test on the session user; false without a session |
| Auth.StringRolesIgnored | ntp-blog-app/app/lib/auth.ts:13 | a string roles claim, even 'ADMIN', counts as no claim |
| Middleware.MiddlewareIsAdmin | ntp-blog-app/app/middleware.ts:19-21 | admin iff the roles claim is an array with 'ADMIN' or the string 'ADMIN' |
| Middleware.Normalize | ntp-blog-app/app/middleware.ts:15-26 | afterwards the role is 'ADMIN' or 'USER'; 'ADMIN' iff the roles claim is an array with 'ADMIN' or the string 'ADMIN'; nothing else changes |
| Middleware.RunMiddleware | ntp-blog-app/app/middleware.ts:10-28 | a session user is normalised in place; without one nothing changes |
| Middleware.NormalizeIgnoresOldRole | ntp-blog-app/app/middleware.ts:26 | the previous role is overwritten; a claimed 'ADMIN' with no roles claim becomes 'USER' |
| Middleware.NormalizeIdempotent | ntp-blog-app/app/middleware.ts:19-26 | running the middleware twice is running it once |
| Entities.ParseStatus | ntp-blog-app/app/components/ListBlogItem.tsx:13-17 | exactly the three enum names are statuses, and parsing inverts naming |
| Entities.ParseStatusName | ntp-blog-app/app/components/ListBlogItem.tsx:13-17 | every status parses back from its name |
| Entities.ParseRole | ntp-blog-app/app/api/admin/users/route.ts:142 | exactly 'USER' and 'ADMIN' are roles, and parsing inverts naming |
| Entities.FindBlog | ntp-blog-app/app/api/admin/blogs/route.ts:91-93 | `findUnique` by id: the index of a row with that id; none iff no row has it |
| Entities.FindUserByEmail | ntp-blog-app/app/api/blogs/route.ts:38-42 | `findUnique` by e-mail: a row with that e-mail, or none when no row has it |
| Entities.FindUser | ntp-blog-app/app/api/admin/users/route.ts:149-150 | `findUnique` by id on users: a row with that id; none iff no row has it |
| Entities.Filter | ntp-blog-app/app/api/blogs/route.ts:152-153 | a `where`: exactly the matching elements, never more than the input |
| Entities.FilterAppend | ntp-blog-app/app/admin/blogs/page.tsx:185 | filtering distributes over concatenation, so order is kept |
| Entities.FilterAll | ntp-blog-app/app/admin/blogs/page.tsx:185 | a filter every element passes changes nothing |
| Entities.FilterMultiset | ntp-blog-app/app/api/blogs/route.ts:152-153 | a filter keeps each matching element with its multiplicity and drops the rest |
| Entities.FilterLength | api-blog/app/api/blog/route.js:83-86 | the filter keeps the whole list iff every element passes |
| Entities.StatusPartition | ntp-blog-app/app/api/admin/users/route.ts:61-91 | the approved, rejected and pending counts of any set of posts add up to its count |
| Entities.RemoveById | ntp-blog-app/app/api/admin/blogs/route.ts:100-102 | delete by id leaves exactly the rows with other ids |
| Entities.RemoveAbsent | ntp-blog-app/app/api/admin/blogs/route.ts:95-97 | removing an absent id changes nothing |
| Entities.RemovePresent | ntp-blog-app/app/api/admin/blogs/route.ts:100-102 | with unique ids, removing a present id removes exactly its row |
| Entities.FilterUnique | ntp-blog-app/app/api/admin/blogs/route.ts:100-102 | filtering rows with unique ids keeps them unique |
| Entities.RemoveUnique | ntp-blog-app/app/api/post/route.ts:114-116 | removal keeps ids unique |
| Entities.StatusFilter | ntp-blog-app/app/api/admin/blogs/route.ts:28-30 | no filter for an absent, empty or 'ALL' parameter; any other parameter filters on the status it names exactly when it names one, and is the store error otherwise |
| Entities.BeforePreorder | ntp-blog-app/app/api/admin/blogs/route.ts:43-46 | both orderings are total and transitive |
| Entities.UserNewerPreorder | ntp-blog-app/app/api/admin/users/route.ts:53-55 | newest-first on users is total and transitive |
| Entities.SortedHeadNewest | ntp-blog-app/app/api/admin/users/route.ts:82 | the head of a newest-first list is at least as new as every element |
| Entities.FindMany | ntp-blog-app/app/api/blogs/route.ts:152-171 | `findMany({ where, orderBy })`: sorted, exactly the matching rows with multiplicity, as many as `count({ where })` |
| HistoryLog.ItemOf | ntp-blog-app/app/lib/dynamodb.ts:63-73 | the stored item has exactly the six payload fields |
| HistoryLog.Upsert | ntp-blog-app/app/lib/dynamodb.ts:98-148 | the record ('history', blogId) afterwards has the status and the `updated_at` reading; an existing one keeps created_at and e-mail; a new one gets the e-mail and its own `created_at` reading; other records are unchanged |
| HistoryLog.UpsertWellKeyed | ntp-blog-app/app/lib/dynamodb.ts:98-148 | every record stays under its own key, so at most one record per post |
| HistoryLog.UpsertIdempotent | ntp-blog-app/app/lib/dynamodb.ts:98-148 | repeating an update with the same arguments changes nothing more |
| HistoryLog.HistoryTable.CreateItem | ntp-blog-app/app/lib/dynamodb.ts:58-83 | a put of the six fields under the payload's key, or the table's error rethrown with nothing changed |
| HistoryLog.HistoryTable.UpdateBlogStatus | ntp-blog-app/app/lib/dynamodb.ts:85-154 | the table becomes the upsert, or the error is rethrown with nothing changed |
| HistoryLog.HistoryTable.GetAllItems | ntp-blog-app/app/lib/dynamodb.ts:156-175 | exactly the items of partition 'history', each once; an error is rethrown |
| ApiBlogsRoute.AuthorName | ntp-blog-app/app/api/blogs/route.ts:49 | the name, else the e-mail's local part, else 'Anonymous'; never empty |
| ApiBlogsRoute.NewBlog | ntp-blog-app/app/api/blogs/route.ts:55-65 | PENDING with no publication date whatever was sent; the excerpt defaults to the title's first 150 characters; the image defaults to ''; the slug is the untrimmed '-' slug of the title, starting or ending with '-' exactly when the lowercased title starts or ends with a non-slug character |
| ApiBlogsRoute.NewAuthor | ntp-blog-app/app/api/blogs/route.ts:44-52 | the created author has the session's id and e-mail, role USER, and a non-empty name from the name, e-mail local part or 'Anonymous' |
| ApiBlogsRoute.HistoryMessage | ntp-blog-app/app/api/blogs/route.ts:76-90 | the history item names the app and the post, carries the post's dates and the author's e-mail as user and context, and a status that parses back to the post's status |
| ApiBlogsRoute.IsAdminHere | ntp-blog-app/app/api/blogs/route.ts:122 | admin iff the role claim is exactly 'ADMIN' |
| ApiBlogsRoute.Post | ntp-blog-app/app/api/blogs/route.ts:9-107 | 401 / 400 with nothing written; author looked up by e-mail, else created from the session; 201 with the new post appended; the history write's failure does not change the answer |
| ApiBlogsRoute.Get | ntp-blog-app/app/api/blogs/route.ts:109-182 | 401 without a session; newest first; an admin (role claim only) sees the filtered table; others see their own filtered posts and every approved post, never another user's pending or rejected post |
| AdminBlogsRoute.IsAdminHere | ntp-blog-app/app/api/admin/blogs/route.ts:15-16 | admin iff the role is 'ADMIN', or the roles claim is an array with 'ADMIN' or a string containing 'ADMIN' |
| AdminBlogsRoute.Gate | ntp-blog-app/app/api/admin/blogs/route.ts:10-20 | 401 without a session and 403 for a non-admin (role or roles claim including 'ADMIN') |
| AdminBlogsRoute.Get | ntp-blog-app/app/api/admin/blogs/route.ts:6-57 | the gate; for an admin, 500 when the status parameter names no status (the store rejects the query); otherwise exactly the posts passing the status filter, by status ascending then newest first |
| AdminBlogsRoute.Delete | ntp-blog-app/app/api/admin/blogs/route.ts:59-115 | the gate; `deleteAll=true` (checked first) empties the table and reports the count; a missing id gives 400 and an unknown id 404 with nothing changed; otherwise exactly that post is removed and its id echoed |
| AdminUsersRoute.Previews | ntp-blog-app/app/api/admin/users/route.ts:42-46 | the preview columns of each post, in order |
| AdminUsersRoute.WithStats | ntp-blog-app/app/api/admin/users/route.ts:35-93 | the post count; total = approved + rejected + pending = that count; `recentBlogs` is the previews of the user's five newest posts; `lastActive` is the newest post's date, else the user's creation date |
| AdminUsersRoute.Recent | ntp-blog-app/app/api/admin/users/route.ts:42-50 | min(5, post count) previews, newest first, each of one of the user's posts |
| AdminUsersRoute.NewestChosen | ntp-blog-app/app/api/admin/users/route.ts:42-50 | the chosen posts are min(5, post count) of the user's own posts, and any of the user's posts left out is no newer than every chosen one |
| AdminUsersRoute.IsAdminHere | ntp-blog-app/app/api/admin/users/route.ts:23-26 | admin iff the role is 'ADMIN', or the roles claim is an array with 'ADMIN' or exactly the string 'ADMIN' |
| AdminUsersRoute.LastActive | ntp-blog-app/app/api/admin/users/route.ts:82 | the date of the user's newest post, which no post of theirs exceeds; the user's creation date when there is none |
| AdminUsersRoute.RecentPreviews | ntp-blog-app/app/api/admin/users/route.ts:47-50 | the first previews of a newest-first list are newest first and belong to the user |
| AdminUsersRoute.UsersOf | ntp-blog-app/app/api/admin/users/route.ts:84-86 | the user rows of a listing, in order |
| AdminUsersRoute.Get | ntp-blog-app/app/api/admin/users/route.ts:6-102 | 401 for no session and 401 (not 403) for a non-admin (role, array or string roles claim); otherwise a permutation of all users, newest first, each with its statistics |
| AdminUsersRoute.Patch | ntp-blog-app/app/api/admin/users/route.ts:104-174 | session only: 401; 400 for bad JSON, a missing field or a role outside USER/ADMIN, with nothing changed; an unknown id gives 500; otherwise only that user's role changes |
| AdminStatsRoute.Get | ntp-blog-app/app/api/admin/stats/route.ts:4-20 | the five counts, and pending + approved + rejected = total |
| AdminStatsRoute.Statuses | ntp-blog-app/app/api/admin/stats/route.ts:8-10 | the status column of the posts |
| AdminStatsRoute.CountStatusColumn | ntp-blog-app/app/api/admin/stats/route.ts:8-10 | each status count is the multiplicity of that status in the status column |
| RoleAgreement.AdminTestsNested | ntp-blog-app/app/api/admin/users/route.ts:23-26 | the four admin tests are nested: /api/blogs ⇒ auth helper ⇒ admin users ⇒ admin blogs |
| RoleAgreement.UsersRouteBeyondAuth | ntp-blog-app/app/api/admin/users/route.ts:26 | a string 'ADMIN' roles claim passes the users route but not the auth helper |
| RoleAgreement.SubstringRolesPassBlogGate | ntp-blog-app/app/api/admin/blogs/route.ts:15-16 | the string claim 'NOT_ADMIN' passes the admin-blogs gate |
| RoleAgreement.AgreeAfterMiddleware | ntp-blog-app/app/middleware.ts:19-26 | after normalisation, the auth helper returns exactly the middleware's decision |
| PostRoute.Get | ntp-blog-app/app/api/post/route.ts:6-9 | 200 with every post |
| PostRoute.PostSlug | ntp-blog-app/app/api/post/route.ts:23-26 | the trimmed '-' slug of the title: only [a-z0-9-], no '--', no '-' at either end, the title's lowercased slug characters in order |
| PostRoute.NewPost | ntp-blog-app/app/api/post/route.ts:28-35 | only title, content, trimmed slug and author are set; the status is the table default PENDING |
| PostRoute.Post | ntp-blog-app/app/api/post/route.ts:11-46 | 400 when title, content or author id is missing; 500 for bad JSON or an unknown author; otherwise 201 with the post appended |
| PostRoute.Edited | ntp-blog-app/app/api/post/route.ts:71-77 | title and content replaced only by non-empty values; every other field unchanged |
| PostRoute.EditedIdempotent | ntp-blog-app/app/api/post/route.ts:71-77 | repeating an edit changes nothing more |
| PostRoute.EditedEmpty | ntp-blog-app/app/api/post/route.ts:74-75 | an edit with empty values changes nothing |
| PostRoute.Put | ntp-blog-app/app/api/post/route.ts:48-89 | 400 without id and 404 for an unknown id, with nothing changed; otherwise only that post is edited |
| PostRoute.Delete | ntp-blog-app/app/api/post/route.ts:91-128 | 400 without id and 404 for an unknown id, with nothing changed; otherwise exactly that post is removed |
| BlogRoute.AuthorName | ntp-blog-app/app/blog/route.ts:33 | the name, else the e-mail's local part (no 'Anonymous' fallback here) |
| BlogRoute.ClientBlog | ntp-blog-app/app/blog/route.ts:39-49 | the client's slug and status win (a client can set APPROVED); an empty slug becomes the untrimmed '-' slug of the title, with a '-' at an end exactly when the lowercased title has a non-slug character there; an invalid status is refused; the excerpt defaults to title[0..150); an empty image is null |
| BlogRoute.Post | ntp-blog-app/app/blog/route.ts:6-59 | 401 / 400 with nothing written; the author is created before the post, so a refused status leaves the author; 200 with the post appended |
| BlogRoute.PageOf | ntp-blog-app/app/blog/route.ts:67-88 | `skip`/`take`: items [(page−1)·limit, min(page·limit, total)) |
| BlogRoute.PagesPrefix | ntp-blog-app/app/blog/route.ts:67-88 | the first n pages together are the first n·limit items |
| BlogRoute.PagesCover | ntp-blog-app/app/blog/route.ts:99 | the `totalPages` pages together are the whole list |
| BlogRoute.ListFilter | ntp-blog-app/app/blog/route.ts:69-72 | status equality filter when the parameter is non-empty, with no 'ALL' case |
| BlogRoute.IntParam | ntp-blog-app/app/blog/route.ts:64-65 | `parseInt(param \|\| fallback)`: the fallback is read for an absent or empty parameter, the parameter otherwise |
| BlogRoute.IntParamRoundTrip | ntp-blog-app/app/blog/route.ts:64-65 | a page or limit written in decimal is read back as that number |
| BlogRoute.PagingOk | ntp-blog-app/app/blog/route.ts:64-67 | usable paging: both parameters are numbers, `skip` is not negative and `take` is positive |
| BlogRoute.Get | ntp-blog-app/app/blog/route.ts:61-109 | the page of the matching posts newest first, with total = matching count and totalPages = ceil(total / limit); otherwise 500 |
| BlogRoute.DefaultPage | ntp-blog-app/app/blog/route.ts:64 | an absent page parameter reads as page 1 |
| BlogRoute.DefaultLimit | ntp-blog-app/app/blog/route.ts:65 | an absent limit parameter reads as 10 |
| BlogRoute.GetDefaults | ntp-blog-app/app/blog/route.ts:61-101 | with no parameters: the ten newest posts, total = all posts, page 1, limit 10 |
| BlogRoute.PageOneIsPrefix | ntp-blog-app/app/blog/route.ts:67-88 | page 1 is the first `limit` items |
| CreatePage.GenerateSlug | ntp-blog-app/app/blog/create/page.tsx:48-53 | the trimmed '_' slug of the title: only [a-z0-9_], no '_' at either end, no '__', the title's lowercased [a-z0-9] characters in order |
| CreatePage.GenerateSlugIdempotent | ntp-blog-app/app/blog/create/page.tsx:48-53 | `generateSlug` is idempotent |
| CreatePage.CreateBlogForm.constructor | ntp-blog-app/app/blog/create/page.tsx:55-59 | the form starts with empty title and slug |
| CreatePage.CreateBlogForm.HandleTitleChange | ntp-blog-app/app/blog/create/page.tsx:55-59 | the title is set and the slug becomes its slug, overwriting any manual edit |
| CreatePage.CreateBlogForm.HandleSlugChange | ntp-blog-app/app/blog/create/page.tsx:243 | a manual slug edit sets the slug and leaves the title |
| ListBlogItem.StatusColor | ntp-blog-app/app/components/ListBlogItem.tsx:13-17 | each status has a colour |
| ListBlogItem.StatusColorInjective | ntp-blog-app/app/components/ListBlogItem.tsx:13-17 | different statuses have different colours |
| ListBlogItem.ReadMinutes | ntp-blog-app/app/components/ListBlogItem.tsx:21 | ceil((spaces + 1) / 200), so at least 1 |
| ListBlogItem.ReadTime | ntp-blog-app/app/components/ListBlogItem.tsx:21 | the label is a number followed by ' min read', and the number reads back as the read minutes |
| ListBlogItem.ReadMinutesMonotone | ntp-blog-app/app/components/ListBlogItem.tsx:21 | read time is monotone in the number of spaces |
| ListBlogItem.ReadMinutesBounds | ntp-blog-app/app/components/ListBlogItem.tsx:21 | the least number of 200-word minutes covering the words; 1 below 200 spaces |
| ListBlogItem.ShownSummary | ntp-blog-app/app/components/ListBlogItem.tsx:63 | the excerpt if non-empty, else the first min(150, length) characters of the content, followed by '...' |
| ListBlogItem.AuthorInitial | ntp-blog-app/app/components/ListBlogItem.tsx:69 | the upper-cased first character of the name, or 'U' |
| ListBlogItem.AuthorDisplayName | ntp-blog-app/app/components/ListBlogItem.tsx:72 | the name, or 'Anonymous' |
| AdminBlogsPage.ClientMatchesServerGate | ntp-blog-app/app/admin/blogs/page.tsx:44-47 | the page's admin test is the admin-blogs route's test |
| AdminBlogsPage.ActionsOffered | ntp-blog-app/app/admin/blogs/page.tsx:381-400 | approve and reject are offered exactly on the rows whose badge reads 'Pending' |
| AdminBlogsPage.StatusRequest | ntp-blog-app/app/admin/blogs/page.tsx:109-117 | the PATCH body carries the status, and the reason only when non-empty |
| AdminBlogsPage.GetStatusDetails | ntp-blog-app/app/admin/blogs/page.tsx:267-287 | Approved with a date iff published; Rejected with the reason; otherwise Pending |
| AdminBlogsPage.ModerationPage.constructor | ntp-blog-app/app/admin/blogs/page.tsx:31-41 | the page state starts empty with every dialog closed |
| AdminBlogsPage.ModerationPage.Reload | ntp-blog-app/app/admin/blogs/page.tsx:65-100 | a successful reload replaces the listing; a failed one keeps it |
| AdminBlogsPage.ModerationPage.HandleAction | ntp-blog-app/app/admin/blogs/page.tsx:102-148 | a non-admin sends nothing; an admin sends the status request; after a successful rejection the dialog is closed and cleared |
| AdminBlogsPage.ModerationPage.HandleRejectionSubmit | ntp-blog-app/app/admin/blogs/page.tsx:150-157 | nothing is sent and nothing changes without a selected post or with a blank reason; otherwise the trimmed reason, with non-space ends, is sent, and after a successful admin submit the listing is reloaded, the dialog closed and the reason and selection cleared; the delete dialogs are untouched |
| AdminBlogsPage.ModerationPage.HandleReject | ntp-blog-app/app/admin/blogs/page.tsx:159-166 | only an admin selects the post and opens the reason dialog |
| AdminBlogsPage.ModerationPage.HandleApprove | ntp-blog-app/app/admin/blogs/page.tsx:223-265 | a non-admin sends nothing; an admin sends APPROVED with no reason |
| AdminBlogsPage.ModerationPage.HandleDeleteBlog | ntp-blog-app/app/admin/blogs/page.tsx:168-194 | after a successful delete the listing is the old one without that id, in order |
| AdminBlogsPage.ModerationPage.HandleDeleteAllBlogs | ntp-blog-app/app/admin/blogs/page.tsx:196-221 | after a successful delete-all the listing is empty |
| ApiBlogStore.MockPosts | api-blog/app/api/blog/route.js:4-29 | three seed posts with ids 1, 2, 3 |
| ApiBlogStore.Without | api-blog/app/api/blog/route.js:84 | the filter keeps exactly the posts with other ids, and keeps the length iff the id is absent |
| ApiBlogStore.FindPost | api-blog/app/api/blog/route.js:118 | `findIndex`: the first index with that id, none iff absent |
| ApiBlogStore.Merged | api-blog/app/api/blog/route.js:129-133 | each field is replaced only by a non-empty update |
| ApiBlogStore.PostStore.constructor | api-blog/app/api/blog/route.js:32 | the store starts with the seed posts |
| ApiBlogStore.PostStore.Get | api-blog/app/api/blog/route.js:35-37 | the current posts list |
| ApiBlogStore.PostStore.Create | api-blog/app/api/blog/route.js:40-68 | 400 when slugId, title or content is missing, with nothing changed; otherwise exactly one post, with the clock id and the three fields, is appended and returned with 201 |
| ApiBlogStore.PostStore.Delete | api-blog/app/api/blog/route.js:71-102 | 400 for a missing, zero or non-numeric id; every post with the id is removed, others kept in order; 404 if none was there |
| ApiBlogStore.PostStore.Update | api-blog/app/api/blog/route.js:105-146 | 400 without a usable id, 404 for an unknown one, with nothing changed; otherwise the first post with the id is merged in place, keeping id and position |
| ApiBlogStore.DeleteUndoesCreate | api-blog/app/api/blog/route.js:60-84 | deleting a freshly created post restores the list |
| ApiBlogStore.IdParamRoundTrip | api-blog/app/api/blog/route.js:74 | an id printed into a URL parses back to itself |
| ApiBlogStore.MockIds | api-blog/app/api/blog/route.js:4-29 | the seed ids are {1, 2, 3} |
| ApiBlogStore.IdsWithout | api-blog/app/api/blog/route.js:84 | deleting removes exactly that id |
| ApiBlogStore.IdsUpdate | api-blog/app/api/blog/route.js:127-134 | an update in place keeps the set of ids |
| ApiBlogStore.JestSuite | api-blog/__tests__/blog.test.js:16-87 | the six tests in sequence answer 200, 201, 400, 200, 200, 404, the first listing is non-empty, and the created post carries the given data |
| SalaryAnalysis.Queried | mysql-prisma/app/api/salary-analysis/route.js:7-20 | the query returns exactly the employees with a department and some salary |
| SalaryAnalysis.FirstNameIsFirst | mysql-prisma/app/api/salary-analysis/route.js:29-35 | a department's name is that of its earliest qualifying employee; none iff it has none |
| SalaryAnalysis.CountPositive | mysql-prisma/app/api/salary-analysis/route.js:37-48 | a grouped department has at least one salary, so the average is defined |
| SalaryAnalysis.AbsentIsZero | mysql-prisma/app/api/salary-analysis/route.js:24 | a department without qualifying employees gets no salary, total or name |
| SalaryAnalysis.QueryKeepsGroups | mysql-prisma/app/api/salary-analysis/route.js:12-24 | the query's `where` and the reduce's guard agree: grouping the query result or the whole table gives the same figures |
| SalaryAnalysis.NoneQualify | mysql-prisma/app/api/salary-analysis/route.js:51-53 | no department is grouped iff no employee qualifies |
| SalaryAnalysis.StepFigures | mysql-prisma/app/api/salary-analysis/route.js:26-40 | how one qualifying employee changes each department's count, total and first name |
| SalaryAnalysis.BumpAccumulates | mysql-prisma/app/api/salary-analysis/route.js:29-40 | one reduce step keeps the accumulator equal to the per-department figures |
| SalaryAnalysis.AddEmployee | mysql-prisma/app/api/salary-analysis/route.js:29-40 | the entry is created as (name, 0, 0) if missing, then each salary adds its amount and one |
| SalaryAnalysis.GroupByDepartment | mysql-prisma/app/api/salary-analysis/route.js:23-43 | one entry per department with a qualifying employee; count = its number of salaries (≥ 1), total = their sum, name from the first employee; empty iff none qualifies |
| SalaryAnalysis.Analysis | mysql-prisma/app/api/salary-analysis/route.js:4-55 | the same figures stated over the whole employee table |
| Departments.StoredNameWellFormed | mysql-prisma/app/api/departments/route.js:19-30 | a name that passes the check is stored trimmed: non-empty, with no white space at either end, unchanged by another trim |
| Departments.DepartmentDb.Get | mysql-prisma/app/api/departments/route.js:3-6 | 200 with every department |
| Departments.DepartmentDb.Post | mysql-prisma/app/api/departments/route.js:14-39 | 400 for a missing or blank name and 500 for bad JSON or a non-string name, with nothing created; otherwise 201 with a department under the trimmed name appended |
| Departments.DepartmentDb.Insert | mysql-prisma/app/api/departments/route.js:26-30 | `create` appends the row under its fresh id and keeps ids unique |

## Left out

- Rendering, hooks, routing, alerts and `fetch` plumbing are not modelled. The page handlers are methods over the state they update, and a request's error and result are parameters (`ok`, `refreshed`).
- The Prisma, Auth0 session and DynamoDB services are abstract stores and parameters. Their internals are not modelled.
  - `getSession` is an `Option<Identity>`.
  - The Auth0 role update (`updateAuth0UserRole`) is the `auth0Fails` parameter.
- AdminUsersRoute.Patch: when the Auth0 update fails, the model has the row already updated and the answer 500. The two calls actually run concurrently, so in the source the row may or may not be updated.
- `Promise.all` fan-out in the users and stats routes is modelled sequentially; its concurrency is not.
- Department ids, blog ids, user ids and `Date.now()` are parameters. Timestamps are abstract integers, and ISO strings are parameters (`nowIso`; the two `new Date()` readings of a new history record are the separate parameters `createdNow` and `now`).
- `updatedAt` is not refreshed by the `/api/post` PUT (the `@updatedAt` column belongs to a schema that is not part of this model).
- The `category` filter of `/api/blogs` GET is left out. It targets a relation the query's `include` comments out.
- The approve/reject server handler (`/api/blogs/[id]`) is not part of this model. Only the client-side guards that call it are.
- Floating point is left out:
  - salary averages and `toFixed(2)`. SalaryAnalysis stops at integer `(total, count)` per department, and salary amounts are integers.
  - BlogRoute.Get's `totalPages` is the integer ceiling, not IEEE division.
- SalaryAnalysis.Analysis: the order of the output rows is not modelled (JavaScript lists integer keys of `acc` in ascending order); the result is the map from department id to group.
- BlogRoute.Get: a page below 1, a limit below 1 or a non-numeric page or limit is modelled as 500. The store's actual behaviour for those values is not modelled; for instance, `take: 0` returns an empty page.
- BlogRoute.Post and the other 500 answers carry a fixed message. The source appends the thrown error's text, which belongs to the store.
- The status enum's declaration order (PENDING, APPROVED, REJECTED), used by `orderBy: { status: 'asc' }`, is assumed. The schema is not part of this model.
- Case mapping is ASCII only. Strings are sequences of code points, not UTF-16 code units, and `parseInt` is exact beyond the safe-integer range.
- JSON fields that are present but not strings (numbers, arrays, objects) are not modelled, except for the department `name`, where a truthy non-string makes `trim` throw.
- The middleware's route matcher and `withMiddlewareAuthRequired` redirect are not modelled. The middleware is the role assignment on a given session user.
- ApiBlogStore.JestSuite: the request bodies are any bodies with the tests' shapes (complete data, an incomplete one, any updates), not the literal strings. The clock reading is any value above 999.
- The `include: { author: { select: { name, email } } }` join is not modelled. ApiBlogsRoute.Post, ApiBlogsRoute.Get, AdminBlogsRoute.Get and BlogRoute.Get answer with bare post rows; the author's name and e-mail embedded in each row are left out.
- Two crash paths and logging are left out:
  - BlogRoute.AuthorName: the session e-mail is a string, so an absent e-mail is modelled as ''. For such a session without a name the model stores the author with the name ''; the source's `session.user.email.split` throws there.
  - A JSON body of `null` parses and then throws on the first field access. The model treats every parsed body as an object, so it cannot express this input. In the api-blog PUT the id is checked before the body is used, so there a `null` body with a missing id still answers 400.
  - `console.log` and `console.error` calls are dropped.
- Store failures are not modelled. Every route catches an exception from Prisma and answers 500 (for example ntp-blog-app/app/api/admin/stats/route.ts:21-26, mysql-prisma/app/api/departments/route.js:7-11, mysql-prisma/app/api/salary-analysis/route.js:56-65); the model's stores never fail, so:
  - AdminStatsRoute.Get always answers with the five counts;
  - Departments.DepartmentDb.Get always answers 200;
  - SalaryAnalysis.Analysis has no failure outcome;
  - the other store reads and writes of the routes likewise always succeed, except where a 500 is stated (an invalid status value, an unknown author, a colliding user id).
- ApiBlogsRoute.Post: the session e-mail is a string, so an absent e-mail is modelled as ''. The source's `findUnique({ where: { email: undefined } })` throws there and answers 500; the model instead looks up the e-mail '' and may create an author with it or attribute the post to an earlier user with that e-mail.
- HistoryLog.HistoryTable.GetAllItems: the result is every item of the 'history' partition. The source sends a single Query and returns only its first page (at most 1 MB of items, in sort-key order); paging and the item order are not modelled.
