# Merxio: verified model of the services

This project models the stateful services of Merxio, an e-commerce backend, and proves what they keep over
all runs. `dafny verify dfyconfig.toml` checks everything.

| part | files |
|---|---|
| Refresh-token rotation | `RefreshTokens`, `RotationMachine`, `RotationInvariants`, `RotationChains`, `RotationAccounting`, `SingleUse`, `SerialRotation`, `LinkTiming`, `RotationLaws`, `AuthService` |
| Product listing | `Ordering`, `Pagination`, `Like`, `Listing`, `ListingAnswers` |
| Catalog writes | `CatalogRows`, `Hierarchy`, `Catalog`, `CatalogLaws`, `CatalogService` |
| Default addresses | `Addresses`, `AddressService` |
| Permissions, access tokens, slugs, CORS setting | `Rbac`, `AccessTokens`, `Slugs`, `CorsOrigins`, `Text` |
| Shared | `Wrappers`, `Sessions`, `Attributes`, `Runs` |

**Rotation.** `RotationMachine` splits each request into a read and a commit, with any other steps in between:
the service takes no row lock and sets no isolation level (app/database/session.py:10-21). A commit overwrites
only the columns whose assigned value differs from the value the request had loaded, which is the UPDATE that
SQLAlchemy's unit of work sends. Runs are arbitrary sequences of steps, including clock ticks and flips of
`User.is_active`. A history of commits serves to state families and counts, because links in the table can be
overwritten or erased. `SerialRotation` runs each request to its end before the next; such runs are runs of the
same machine. `RotationLaws` reads each step of it off the rows. `AuthService` is the imperative service, and each
of its requests is proved to be one serial turn.

**What is false, and when.**

- *Single use.* The unit test of `refresh` says that replaying the old token becomes invalid
  (tests/unit/test_auth_service.py:160-188). Serially that is proved (`SerialTokensAreSingleUse`). Under
  interleaving it fails (`TwoRacingRefreshesBothSucceed`). A refresh commit spends its token a second time exactly
  when an earlier one spent it (`RefreshSpendsAgainIff`, and for whole runs `RunsAreSingleUseIff`); in runs without
  logouts that is exactly when the row it writes carries a link (`RunsWithoutLogoutsAreSingleUseIff`). With logouts
  nothing in the tables tells (`TablesCannotTellASecondUse`).
- *One live token per family.* A refresh commit leaves its family with one more live token exactly when the row it
  writes is no longer live (`RefreshCommitGrowsFamilyIff`).
- *Link timing.* Serially a link is always made before the old token expires (`SerialRotationTiming`). Under
  interleaving a late logout can move the revocation past the expiry and keep the link (`LateLogoutKeepsLink`); the
  links are timely at every moment of a run exactly when it has no such commit (`RunsKeepLinksTimelyIff`).
- *Hierarchy.* The service refuses a category as its own parent but no longer cycle (`FourRequestsCloseACycle`);
  the exact condition is `RunsKeepForestIff`.
- *Paging* is complete for every tie-break exactly when no page boundary cuts a tie (`PagingIsCompleteIff`).
- *Search.* A search with a backslash need not find the text it spells (`BackslashIsNotFound`). One whose wildcards
  are all escaped finds the texts that contain it without its escapes (`EscapedSearchIsContainment`), and so finds
  its own literal occurrences exactly when it contains that string (`EscapedOccurrencesAreFoundIff`). A client that
  escapes a string finds exactly the texts that contain the string (`EscapingFindsTheString`). For the other
  searches `LiteralOccurrencesAreFoundIff` reduces the question to one text, and `SearchMeaning` says what every
  search finds.

**Parameters and choices.** Time is an integer, and the length of a token's life a parameter. Random tokens and
ids are chosen freely by whoever runs the model, so that UNIQUE constraints and primary keys may refuse them.
The digest, the password hash, the fold of a character, the lower-casing of an email address, the collation and
the set of blanks are functions about which nothing else is assumed. Prices are integers in cents.

## Model

| member | source | states |
|---|---|---|
| RotationInvariants.StepKeeps | app/services/auth.py:31-122 | Every step of the interleaved machine keeps the invariant (revoked in both columns or neither, links to later tokens of the same owner and family, no two to one token, unique emails, and what pending requests remember) and never removes a row, un-revokes it, or changes its owner or expiry |
| RotationInvariants.RunKeeps | app/services/auth.py:31-122 | The same for every sequence of steps |
| RotationInvariants.RefreshRotates | app/services/auth.py:95-107 | A refresh commit revokes and links the old row, adds exactly one new live row for the same owner, and leaves every other row and all users as they were, whatever happened to the old row since it was read |
| RotationInvariants.RotationKeeps | app/repositories/users.py:50-85 | Any such change of the tables keeps the table invariant, also when it overwrites an earlier link |
| RotationInvariants.LogoutKeeps | app/services/auth.py:115-122 | A logout commit keeps the table invariant even when it erases the link of a rotated token |
| RotationInvariants.RegisterKeeps | app/services/auth.py:40-48 | A registration that reads no user but commits after others keeps emails unique and the table invariant |
| RotationChains.FollowMovesForward | app/repositories/users.py:75-85 | k links lead k or more commits later in the history, to the same owner and login family |
| RotationChains.ChainsMergeOnlyByContainment | app/services/auth.py:95-101 | Two walks along links that meet are parts of one chain |
| RotationChains.ReachableLinksAreInjective | app/models/refresh_token.py:22-30 | In every reachable state `is_active` holds exactly when `revoked_at` is null, each link target exists with the same owner, and has one predecessor |
| RotationChains.ReachableUsersAreDistinct | app/models/user.py:28-29 | In every reachable state token owners exist and emails are unique, even when registrations race |
| RotationChains.ReachableLinksFormChains | app/services/auth.py:70-122 | In every reachable state of the interleaved machine the links form disjoint, acyclic, finite chains, each within one owner and one login family |
| RotationChains.RevocationIsPermanent | app/repositories/users.py:75-85 | Over any later steps a revoked row stays revoked, and owner and expiry stay |
| RotationAccounting.LiveTokensOfAFamily | app/services/auth.py:70-122 | Live tokens of a login family = 1 + refresh commits that hit a revoked row - logouts that hit a live row, in every reachable state of the interleaved machine |
| RotationAccounting.StepAccounts | app/services/auth.py:95-122 | Each step keeps that balance for every family, and each token is spent at most once while live |
| RotationAccounting.SpentLiveAtMostOnce | app/services/auth.py:75-101 | Under any interleaving at most one refresh finds a given token live at its commit, and none while it is still live |
| RotationAccounting.RefreshCommitGrowsFamilyIff | app/services/auth.py:72-107 | A refresh commit adds a live token to its family exactly when the row it writes was revoked after the request read it |
| RotationAccounting.TwoRacingRefreshesBothSucceed | app/services/auth.py:70-107 | A concrete run in which one token is spent twice, both successors live, and the first link is lost |
| SingleUse.LiveMeansUnused | app/services/auth.py:75-122 | In every reachable interleaved state a token is live exactly when it exists, no refresh has spent it and no logout has revoked it |
| SingleUse.RefreshSpendsAgainIff | app/services/auth.py:72-107 | A refresh commit with a fresh hash spends its token once more, which is a second time exactly when an earlier refresh commit spent it, and, while no logout of it has committed, exactly when its row carries a link |
| SingleUse.RunsAreSingleUseIff | app/services/auth.py:70-122 | Every token is spent at most once throughout an interleaved run exactly when no step of it is such a second refresh commit |
| SingleUse.RunsWithoutLogoutsAreSingleUseIff | app/services/auth.py:70-107 | In runs without logouts: exactly when no refresh commit finds a link in the row it writes |
| SingleUse.TablesCannotTellASecondUse | app/services/auth.py:115-122 | Two reachable states with the same tables, clock and pending requests, in which the same commit spends a token the second time and the first time |
| SerialRotation.TurnIsRun | app/services/auth.py:31-122 | A request with nothing else in flight is its read, a wait and its commit in the interleaved machine |
| SerialRotation.SerialRunsAreRuns | app/services/auth.py:31-122 | Every serial run is a run of the interleaved machine, so that all its results hold of it |
| SerialRotation.ServeAllKeeps | app/services/auth.py:31-122 | Serial runs keep the interleaved invariants, are free of races, and keep the timing invariants |
| SerialRotation.SerialFamilyHasAtMostOneLiveToken | app/services/auth.py:95-122 | Serially a login family has one live token until it is logged out, and none after |
| SerialRotation.SerialTokensAreSingleUse | app/services/auth.py:75-85 | Serially refresh accepts a token at most once and refuses it as invalid at any later time |
| SerialRotation.SerialDeadFamiliesStayDead | app/services/auth.py:115-122 | Serially a family with no live token never has one again, and refresh refuses all its tokens |
| SerialRotation.SerialRotationTiming | app/services/auth.py:73-107 | With clock readings at most d apart, each remaining link was made before the old token's expiry, the new one expires no earlier, and the (i+1)-th rotation of a family comes before issue + (i+1)*life + i*d |
| LinkTiming.StepKeepsLinksTimelyIff | app/repositories/users.py:75-85 | From a reachable state with timely links, a step of the interleaved machine keeps them timely exactly when it is not the commit of a logout that read the row without a link, finds it with one, and writes a new revocation time at or past the expiry |
| LinkTiming.RunsKeepLinksTimelyIff | app/services/auth.py:70-122 | Under any interleaving the links are timely at every moment of a run exactly when no step of it is such a late logout |
| LinkTiming.LateLogoutKeepsLink | app/services/auth.py:121 | A concrete run with a late logout, whose link ends up revoked past its expiry |
| RotationLaws.RefreshRead | app/services/auth.py:70-93 | A refresh goes on to its commit exactly for a live, unrevoked, unexpired token of an existing active user; else nothing changes |
| RotationLaws.OtherReads | app/services/auth.py:31-122 | Likewise for login (active user), logout (any existing token) and registration (no user with that email) |
| RotationLaws.OtherSteps | app/models/user.py:33 | Waiting moves only the clock, and changing `is_active` only that flag |
| RotationLaws.ReachableRefreshReads | app/services/auth.py:70-93 | In every reachable interleaved state a refresh goes on exactly when its token exists, was never spent nor logged out, has not expired, and its user is active |
| RotationLaws.RefreshCommit | app/services/auth.py:95-107 | Every column, row and event that a refresh commit writes, also over a row that changed since the read; only a taken digest stops it |
| RotationLaws.LogoutCommit | app/services/auth.py:115-122 | The same for a logout commit; it writes the revocation time and erases the link only where they differ from what it loaded |
| RotationLaws.LoginCommit | app/services/auth.py:66-68 | The same for a login commit |
| RotationLaws.RegisterCommit | app/services/auth.py:40-48 | The same for a registration commit, which fails as a whole when id, digest or, since its read, the email was taken |
| RotationLaws.Families | app/services/auth.py:95-107 | How issue, rotation and logout change families, issue times, rotation times and use counts, for every token |
| RotationLaws.ReachableFamiliesWereIssued | app/services/auth.py:95-107 | In every reachable state each token belongs to the family of a token that some login or registration issued |
| RotationLaws.InactiveUsersGetNoToken | app/services/auth.py:59-64 | Over any interleaved run in which a user stays inactive and has no request past its read, none gets past its read, and the user's tokens and live tokens only shrink to those there were |
| RotationLaws.InactiveUsersAreRefused | app/services/auth.py:87-93 | Serially, a login of an inactive user and a refresh of its token change no table |
| AuthServices.UserRepository.GetByEmail | app/repositories/users.py:26-29 | Finds a user whose stored email is the lower-cased one, or there is none |
| AuthServices.UserRepository.CreateUser | app/repositories/users.py:31-48 | Flushes the user with the lower-cased email, or fails with nothing flushed when id or email is taken |
| AuthServices.UserRepository.CreateRefreshToken | app/repositories/users.py:50-64 | Flushes a live, unlinked row, or fails with nothing flushed when the hash is taken |
| AuthServices.UserRepository.RevokeRefreshToken | app/repositories/users.py:75-85 | The three assignments and the flush are the column-wise UPDATE of the machine, for a row loaded in the same session |
| AuthServices.AuthService.Register | app/services/auth.py:31-48 | One serial turn. The answer for every table: a taken email first, then a taken id or digest, else the pair of the new user and the raw token. Success adds both the user and the live row of that token's digest; a refusal leaves the committed tables unchanged |
| AuthServices.AuthService.Login | app/services/auth.py:50-68 | Success only for the active user with that email and password, with the raw token of the one live row it adds; each refusal leaves the committed tables unchanged |
| AuthServices.AuthService.Refresh | app/services/auth.py:70-113 | One serial turn. Each error and success is an if-and-only-if on the rows: a live, unrevoked, unexpired row, an existing and active owner, a free digest. On success exactly the old row is revoked and linked, and the row of the token handed out is added; on any failure, also of the insert after the flushed revocation, nothing is committed |
| AuthServices.RefreshTwice | app/services/auth.py:70-113 | The pair of any of the three issuing requests works once: presented while the user is active and before the expiry it gives a new pair, presented again it is refused at any time |
| AuthServices.AuthService.Logout | app/services/auth.py:115-122 | One serial turn; an unknown token changes nothing; a known one is revoked at that time and its link erased, every other row unchanged |
| AuthServices.AuthService.GetUser | app/services/auth.py:124-132 | Returns exactly the existing active user |
| Ordering.SameKeys | app/repositories/product.py:117-124 | Any two orders the database may give for the same rows show the same sequence of sort keys |
| Ordering.DistinctKeysGiveOneOrder | app/repositories/product.py:117-124 | With pairwise distinct keys the order is unique |
| Pagination.WalkKeys | app/repositories/product.py:43-46 | The concatenated pages show the keys of one full listing, for independent tie-breaks per query |
| Pagination.PagingIsCompleteIff | app/repositories/product.py:43-46 | The pages show every row exactly once for all tie-breaks if and only if no page boundary falls between rows with equal keys |
| Like.SearchMeaning | app/repositories/product.py:104-108 | For every search string: the pattern matches exactly when some stretch of the text matches the search as a pattern, or, after a trailing lone backslash, when the text ends in a match of the rest and a percent sign |
| Like.PlainSearchIsContainment | app/repositories/product.py:104-108 | Without percent sign, underscore and backslash a search finds exactly the texts that contain it up to case |
| Like.WildcardSearchIsPlacement | app/repositories/product.py:104-108 | A search without backslash finds exactly the texts over which its pieces between percent signs can be laid in order and without overlap, an underscore over any one character, other characters over themselves up to case |
| Like.EscapingFindsTheString | app/repositories/product.py:104-108 | With a backslash before every wildcard and backslash, and any others, a search for a string finds exactly the texts that contain that string up to case |
| Like.LiteralOccurrencesAreFound | app/repositories/product.py:104-108 | Without backslash a search finds every text that literally contains it |
| Like.EscapedSearchIsContainment | app/repositories/product.py:104-108 | A search whose wildcards are all escaped finds exactly the texts that contain, up to case, the search without its escapes |
| Like.EscapedOccurrencesAreFoundIff | app/repositories/product.py:104-108 | Such a search finds every text that literally contains it if and only if it contains, up to case, itself without its escapes |
| Like.LiteralOccurrencesAreFoundIff | app/repositories/product.py:104-108 | For any search, all texts that literally contain it are found if and only if it does not end in a lone backslash and finds itself |
| Like.BackslashIsNotFound | app/repositories/product.py:104-108 | The search for one backslash does not find the text of one backslash |
| Like.EmptySearchFindsAll | app/repositories/product.py:104 | An empty search as a pattern matches every text, so leaving the filter out changes nothing |
| Listing.MatchingIsOneCondition | app/repositories/product.py:95-115 | The staged filters select exactly the rows of one conjunctive condition |
| Listing.ClauseOrderIsIrrelevant | app/repositories/product.py:95-115 | Any order, and any repetition, of the clauses selects the same rows |
| Listing.MayListIff | app/repositories/product.py:28-46 | What the statement lets the database list is exactly: every match once, in the order of the sort name, spelled out on the rows |
| ListingAnswers.AnswerIff | app/repositories/product.py:28-46 | An answer is the total and the slice from offset to offset + limit of such a listing, and any such slice is a possible answer |
| ListingAnswers.SomeAnswer | app/repositories/product.py:28-46 | Every query has an answer |
| ListingAnswers.AnswerShape | app/repositories/product.py:28-46 | `total` counts the rows that match search, category, seller and activity, spelled out; the page has min(limit, max(0, total - offset)) rows, distinct and all of them matches |
| ListingAnswers.AnswerOrder | app/repositories/product.py:117-124 | What each sort name says about any two rows of an answer; unknown names sort newest first |
| ListingAnswers.AnswerRanks | app/repositories/product.py:43-46 | Row k of an answer has the sort value of row offset + k of any full listing, for every tie-break |
| ListingAnswers.PagesShowTheSortedValues | app/repositories/product.py:43-46 | Answers at offsets 0, L, 2L, ..., each with its own tie-breaks, put together have as many rows as there are matches, and row k has the sort value of row k of any full listing |
| ListingAnswers.DistinctValuesPageCompletely | app/repositories/product.py:43-46 | If no two matches tie, such answers put together are the one full listing |
| ListingAnswers.PagingIsCompleteIffNoTieIsCut | app/repositories/product.py:43-46 | Whatever answers the database gives, together they show every match exactly once, if and only if no page boundary separates two matches that tie |
| ListingAnswers.PriceOrdersMirror | app/repositories/product.py:120-121 | Full answers to `price_desc` show the prices of those to `price_asc` backwards |
| Hierarchy.UpdateKeepsAcyclicIff | app/services/catalog.py:131-144 | A new parent for `c` leaves an acyclic table acyclic exactly when it is null or `c` is not an ancestor of it |
| Hierarchy.CreateKeepsAcyclic | app/services/catalog.py:31-35 | Creating a category closes no cycle |
| Hierarchy.AncestorWalksEnd | app/models/category.py:22-24 | In an acyclic table every walk to the root ends within as many steps as there are categories |
| Catalog.HandleKeeps | app/services/catalog.py:31-123 | Every request keeps unique slugs and SKUs, parents, category references, price bounds and the partition of image rows |
| Catalog.ReachableCatalog | app/services/catalog.py:125-188 | All of these in every state reachable from the empty catalog: no self-parent, no dangling parent, at most ten images per product, 0 <= price <= compare_at_price |
| Catalog.SellerNeverChanges | app/services/catalog.py:96-123 | A product stays, with its seller and creation time, over every run |
| Catalog.OwnSlugAndSkuAreNoConflict | app/repositories/product.py:82-93 | An update that keeps the product's own slug and SKU is accepted |
| Catalog.AddImagesReplaces | app/repositories/product.py:74-80 | After the replacement the product's image rows are exactly the payload's images, one new row each, and the rows of other products are untouched |
| Catalog.ProductWritesReplaceImages | app/services/catalog.py:87-123 | That holds for every successful product request, which changes no other product; category requests touch neither table |
| Catalog.RequestKeepsForestIff | app/services/catalog.py:37-54 | A request leaves the categories a forest exactly when it is not a successful update below a descendant |
| Catalog.RunsKeepForestIff | app/services/catalog.py:31-54 | A run shows a forest at every moment exactly when it contains no such update |
| Catalog.WalksEndInForestRuns | app/services/catalog.py:31-54 | And then every walk to the root ends |
| Catalog.FourRequestsCloseACycle | app/services/catalog.py:131-144 | A concrete accepted run after which a category is its own ancestor |
| CatalogLaws.CreateCategoryVerdict | app/services/catalog.py:31-35 | Which error, or success, a category creation gives, as conditions on the rows in the order of the source |
| CatalogLaws.UpdateCategoryVerdict | app/services/catalog.py:37-54 | Likewise for a category update, including its own id as parent and its own slug |
| CatalogLaws.CategoryWrites | app/repositories/category.py:30-42 | A successful category write stores every payload column under its id and changes no other row |
| CatalogLaws.CreateProductVerdict | app/services/catalog.py:156-188 | Which error, or success, a product creation gives: missing or inactive category, taken slug, taken SKU, taken ids |
| CatalogLaws.UpdateProductVerdict | app/services/catalog.py:96-117 | Likewise for an update: not the caller's product first, then the same checks against all other products |
| CatalogLaws.CreateProductWrites | app/services/catalog.py:87-94 | The created row has the caller as seller, the present time and every payload column, and one image row per payload image; every other row stays |
| CatalogLaws.UpdateProductWrites | app/repositories/product.py:74-80 | The updated row has every payload column and its old seller and creation time; its image rows are replaced; every other row stays |
| CatalogLaws.OnlyTheCreatorUpdates | app/services/catalog.py:87-115 | Over every later run, an update of a created product is answered with product-not-found exactly for callers other than its creator |
| CatalogLaws.CategorySchema | app/schemas/category.py:7-16 | A category payload is refused exactly when it breaks a bound of the schema, spelled out |
| CatalogLaws.ProductSchema | app/schemas/product.py:8-43 | Likewise for a product payload |
| CatalogLaws.ReachableRowsAreBounded | app/schemas/product.py:26-43 | In every state reachable from the empty catalog all category, product and image rows are within these bounds |
| Attributes.SetAttributes | app/repositories/product.py:75-76 | The `setattr` loop assigns the fields in their order |
| CatalogServices.CategoryFieldsGiveTheRow | app/repositories/category.py:37-42 | The loop over a category payload gives exactly the payload's row |
| CatalogServices.ProductFieldsGiveTheRow | app/repositories/product.py:74-80 | The loop over a product payload sets every listed column and leaves seller and creation time |
| CatalogServices.CategoryRepository.Create | app/repositories/category.py:30-35 | Flushes the row, or fails with nothing flushed exactly when id or slug is taken |
| CatalogServices.CategoryRepository.Update | app/repositories/category.py:37-42 | Flushes the payload's row under the id, or fails exactly when another category has the slug |
| CatalogServices.ProductRepository.ReplaceImages | app/repositories/product.py:77-78 | Old image rows of the product go, one row per payload image comes, others stay |
| CatalogServices.ProductRepository.Create | app/repositories/product.py:66-72 | Flushes product and images together, or fails with nothing flushed exactly on a taken id, slug, SKU or image id |
| CatalogServices.ProductRepository.Update | app/repositories/product.py:74-80 | Flushes the new columns and images, keeping seller and creation time, or fails exactly on a conflict with another row |
| CatalogServices.CatalogService.ValidateCategory | app/services/catalog.py:125-154 | The checks of a category payload, in order, as on the tables |
| CatalogServices.CatalogService.ValidateProduct | app/services/catalog.py:156-188 | The checks of a product payload, in order, as on the tables |
| CatalogServices.CatalogService.CreateCategory | app/services/catalog.py:31-35 | Commits exactly the specified tables, or raises the specified error with the committed tables unchanged |
| CatalogServices.CatalogService.UpdateCategory | app/services/catalog.py:37-54 | Likewise |
| CatalogServices.CatalogService.CreateProduct | app/services/catalog.py:87-94 | Likewise, product and images in one commit; `CatalogLaws` says on the rows when and what |
| CatalogServices.CatalogService.UpdateProduct | app/services/catalog.py:96-123 | Likewise; only the seller's own product |
| Addresses.RunRefines | app/services/user.py:39-74 | Over every serial run the table refines a book of owners and of one default per (user, type), run on its own |
| Addresses.RequestRefines | app/services/user.py:39-84 | The service accepts exactly the requests that the book accepts, and each request, also a change of type, carries rows and flags from one book to the next |
| Addresses.RepresentationIsUnique | app/repositories/address.py:47-53 | Rows and flags determine that book |
| Addresses.OneDefaultPerUserAndType | app/services/user.py:39-69 | In every reachable table a user has at most one default per type |
| Addresses.CreateOnRows | app/services/user.py:39-49 | Refused exactly for a taken id; else the new row has owner, time and every payload column, and of the other rows only the default flags of that user and type go, when a default is written |
| Addresses.UpdateOnRows | app/services/user.py:51-69 | Refused exactly for an address the user does not own; else the row has every payload column with owner and creation time kept, and the other rows as for a creation |
| Addresses.DeleteOnRows | app/services/user.py:71-84 | Refused exactly for an address the user does not own; else only that row goes |
| Addresses.DefaultWrite | app/services/user.py:39-69 | A successful default write makes its row the only default of its pair; other pairs keep their default unless it was that row |
| Addresses.OtherWrite | app/services/user.py:51-74 | Any other successful request only takes its own row out of the defaults |
| Addresses.ListingOfAReachableTable | app/repositories/address.py:15-22 | A listing has exactly the user's rows, each once, at most two defaults first, each group newest first |
| Addresses.SomeListing | app/repositories/address.py:15-22 | There is always such a listing |
| AddressServices.AddressRepository.UnsetDefaultForType | app/repositories/address.py:47-53 | The bulk update clears the flag of exactly the rows of that user and type |
| AddressServices.AddressRepository.Update | app/repositories/address.py:36-41 | Sets the payload's columns of one row, keeping owner and creation time |
| AddressServices.UserService.CreateAddress | app/services/user.py:39-49 | Commits exactly the specified table, or leaves it unchanged even though flags were already unset and flushed |
| AddressServices.UserService.UpdateAddress | app/services/user.py:51-69 | Commits exactly the specified table (`Addresses.UpdateOnRows`), or refuses an address the user does not own |
| AddressServices.UserService.DeleteAddress | app/services/user.py:71-74 | Removes exactly that row, or refuses an address the user does not own |
| Rbac.JoinIsReachability | app/repositories/users.py:87-96 | The four-table join finds exactly the names that some role of the user grants |
| Rbac.GrantsAreMonotone | app/services/auth.py:134-136 | More rows never take a permission away |
| Rbac.RevokingAGrantIsLocal | app/models/role_permission.py:22-29 | Removing a grant changes nothing for users without that role |
| AccessTokens.TokenLifetime | app/security/tokens.py:12-41 | A token minted at t decodes to the same user exactly from the whole second of t until `minutes` after it; truncation loses less than a second |
| AccessTokens.ParseOfPrint | app/security/tokens.py:18 | Every 128-bit id survives printing as a UUID and parsing |
| AccessTokens.DecodeIff | app/security/tokens.py:26-41 | For every token, key and time: user x exactly for a token signed with that key, issued, unexpired, of type access, whose subject spells x; a non-empty subject that spells no id is an error of its own, everything else an invalid token |
| AccessTokens.ParseIdIff | app/security/tokens.py:41 | A string is read as x exactly when it is, without hyphens, the 32 hexadecimal digits of x in either case |
| AccessTokens.PrintedId | app/security/tokens.py:18 | A printed id has 36 characters, hyphens at exactly four places and the 32 digits at the others |
| Slugs.SlugsAreJoinedWords | app/schemas/category.py:9 | The one-pass scan accepts exactly the hyphen-joins of non-empty lists of `[a-z0-9]` words within the length bound |
| Slugs.WordsOfASlugAreUnique | app/schemas/product.py:29 | The words of a slug are unique and splitting finds them |
| CorsOrigins.ParseOfJoin | app/core/config.py:50-56 | Parsing the comma-join of any list of origins gives the list back |
| CorsOrigins.ParseIsIdempotent | app/core/config.py:50-56 | Every parser output is a list of non-empty, trimmed, comma-free origins, and parsing its join again changes nothing |
| CorsOrigins.ParseMeaning | app/core/config.py:50-56 | For every text the output is, in order, the non-empty ones of its comma-separated pieces with leading and trailing blanks removed; a list is returned as it is |

## Left out

- Routers, dependency wiring, exception handlers, logging, the health check, the worker and migrations: no hard state.
- Cryptography: bcrypt, SHA-256, random generation and JWT signing are functions, free choices and symbolic keys; nothing is claimed about them. The access token in a token response is not attached to the responses of the authentication service.
- Concurrent runs of catalog and address writes: these services are modelled one request at a time, so their uniqueness claims are serial.
- The two SELECT statements of a refresh (token and user) and its first clock reading are one read step, and everything from its first write to its commit one step, since the row lock of that write is held until then.
- Email and URL syntax, decimal parsing and Unicode case mapping: payloads arrive parsed, and case mapping is a parameter.
- UUID parsing accepts more spellings than hyphens (braces, a `urn:` prefix); only hyphens are removed here.
- Foreign keys to users from products and addresses, and the `id`, `created_at` and `updated_at` columns where no property needs them. No code deletes users, categories or products.
- The contact columns of an address are assigned together in `AddressRepository.Update`, where the source assigns them one by one.
- Name and profile updates, and plain lookups by id or slug: they would only add easy members.
