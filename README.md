# News CMS core in Dafny

A model of the core of a Next.js news site with paid subscriptions, and proofs about it. Four
areas are modelled:

- **The subscription payment lifecycle.**
  - Creating a pending order and the gateway payment request.
  - The gateway's webhook.
  - The client's status poll.
  - The success page the gateway redirects to.
  - How these interleave: replays, a poll from another session, a cancellation after payment.
- **Favorites.**
  - The server actions.
  - The `/api/favorites` and `/api/favorites/check` routes.
  - The optimistic bookmark button.
- **News.**
  - The filtered and unfiltered news queries, and the create, update and delete actions.
  - The comma-list encoding of the active filters in the URL, read by the server component and
    written by the client component.
  - The stand-alone filter form.
- **Accounts.**
  - Sign-up and the profile summary.
  - The credentials `authorize`, the `jwt` callback and the session-creating `encode`.
  - The profile update.
  - The edit-profile dialog's name split and join.

The database is the class `Store.Db`. Its tables are fields:

- `orders`, `users` and `sessions` are maps by key.
- `favorites` and `news` are sequences of rows, so creation order is kept.

`Db.Valid()` holds the schema's uniqueness constraints: unique emails, a unique (user, news) pair
per favorite, and unique news ids. Each ORM call is one `Db` method. An update or delete of a
missing row fails, as Prisma's does. Each route or action is a method that performs the same
calls in the same order. Its `ensures` equates the resulting tables and reply with a pure
function of the old tables. The lemmas state what the source promises about those functions:
error paths, what is written, idempotence, and how the flows compose.

Outside inputs are parameters:

- the session user;
- the gateway's answers;
- the clock (`now`, in milliseconds);
- fresh ids and uuids;
- the email format check, the password hash and `bcrypt.compare`;
- `encodeURIComponent`;
- the default JWT encoder.

A rejected promise or a thrown error is an `Err` or `Fail` value. Times are integers in
milliseconds, and a day is 86 400 000 ms.

Modules, one per source file, plus shared ones:

- `Wrappers`: Option, Result and HTTP reply values.
- `Text`: lower-casing, trimming, split/join, substring search, decimal printing.
- `Lists`: filter-out, toggle and de-duplication.
- `Sorting`: the newest-first order.
- `UrlParams`: the `URLSearchParams` operations used.
- `Store`: the entities and the database.
- `Subscription`: term length, expiry and crediting.

## Model

| member | source | states |
|---|---|---|
| Subscription.TermDays | src/app/api/payment/create/webhook/route.ts:41 | the term is 30 days exactly for "monthly", 365 otherwise |
| Subscription.ExpiryAt | src/app/api/payment/create/webhook/route.ts:40-41 | expiry lies 30 or 365 days after now, 30 exactly for "monthly" |
| Subscription.WithStatus | src/app/api/payment/create/webhook/route.ts:31-34 | only the named order's status changes; the keys are kept |
| Subscription.Credited | src/app/api/payment/create/webhook/route.ts:42-48 | the user becomes active with the given expiry, other columns and rows kept |
| Subscription.CreditedOverwrites | src/app/api/payment/create/webhook/route.ts:42-48 | crediting twice keeps only the second expiry |
| Subscription.CreditedEntitlement | src/app/payment/success/page.tsx:46-52 | after crediting, the user is entitled at a later time exactly while it is before now plus the term |
| PaymentCreate.Price | src/app/api/payment/create/route.ts:36 | 499 for "monthly", 4999 for anything else |
| PaymentCreate.BaseUrl | src/app/api/payment/create/route.ts:37-40 | production address in production, else the configured base when non-empty, else localhost:3000 |
| PaymentCreate.HandleCreate | src/app/api/payment/create/route.ts:11-97 | the handler's orders table, reply and gateway request are those of `Create` |
| PaymentCreate.RejectedRequestsCreateNothing | src/app/api/payment/create/route.ts:15-34 | 401 without a session user, 400 for an unreadable body or a missing subscription type; no order is stored and the gateway is not called |
| PaymentCreate.AcceptedRequestCreatesPendingOrder | src/app/api/payment/create/route.ts:42-49 | an accepted request adds exactly one order, pending, for the session user, at the tariff's price |
| PaymentCreate.PayloadDescribesOrder | src/app/api/payment/create/route.ts:53-69 | the gateway request carries the price with two decimals in RUB, the return address of the new order, capture, the description and metadata naming the order, buyer and type |
| PaymentCreate.GatewayOutcome | src/app/api/payment/create/route.ts:72-96 | a gateway failure gives 500 with the order kept; success returns the payment id, confirmation URL and order id |
| PaymentWebhook.HandleWebhook | src/app/api/payment/create/webhook/route.ts:4-64 | the handler's orders, users and reply are those of `Webhook` |
| PaymentWebhook.InvalidEnvelopeChangesNothing | src/app/api/payment/create/webhook/route.ts:12-15 | a body without `object` or `event` gives 400 and writes nothing |
| PaymentWebhook.CreditRequiresSucceededPayment | src/app/api/payment/create/webhook/route.ts:23-28 | a user row changes only for a succeeded event with succeeded status and order and user in the metadata, and it is the metadata's user |
| PaymentWebhook.CreditPath | src/app/api/payment/create/webhook/route.ts:23-60 | the order becomes paid and the metadata's user active until now plus 30 or 365 days; reply "ok" |
| PaymentWebhook.MissingOrderStillCredits | src/app/api/payment/create/webhook/route.ts:30-38 | a failed order update is swallowed: the user is still credited and the reply is "ok" |
| PaymentWebhook.MissingUserFailsAfterOrderWrite | src/app/api/payment/create/webhook/route.ts:31-63 | an unknown user gives 500 after the order is already paid |
| PaymentWebhook.ReplayActsOnce | src/app/api/payment/create/webhook/route.ts:23-58 | redelivery leaves the store as one delivery at the later time |
| PaymentWebhook.CancelPath | src/app/api/payment/create/webhook/route.ts:50-57 | a canceled payment cancels its order, whatever its status, and touches no user |
| PaymentWebhook.OtherEventsIgnored | src/app/api/payment/create/webhook/route.ts:23-60 | any other event/status pair is acknowledged and writes nothing |
| PaymentWebhook.UnparsableBodyFails | src/app/api/payment/create/webhook/route.ts:61-63 | a body that is not JSON gives 500 and writes nothing |
| PaymentStatus.HandleStatus | src/app/api/payment/create/status/route.ts:11-65 | the handler's orders, users and reply are those of `Status` |
| PaymentStatus.RejectedRequestsChangeNothing | src/app/api/payment/create/status/route.ts:14-24 | 401 without a session user, 400 without both parameters; nothing written |
| PaymentStatus.SucceededCreditsSessionUser | src/app/api/payment/create/status/route.ts:32-48 | on "succeeded" the session user gets the term and the order becomes paid |
| PaymentStatus.OwnerNotCredited | src/app/api/payment/create/status/route.ts:37-43 | the order's owner is not credited when another session polls |
| PaymentStatus.UserWrittenBeforeOrder | src/app/api/payment/create/status/route.ts:37-64 | with a missing order the reply is 500 but the user keeps the new entitlement |
| PaymentStatus.CanceledPath | src/app/api/payment/create/status/route.ts:51-56 | on "canceled" the order is canceled and no user changes |
| PaymentStatus.OtherStatusesAndEcho | src/app/api/payment/create/status/route.ts:58-61 | other statuses write nothing; a success reply echoes the gateway status and the order id |
| PaymentStatus.RepollActsOnce | src/app/api/payment/create/status/route.ts:32-56 | polling again leaves the store as one poll at the later time |
| PaymentSuccess.StatusLabel | src/app/payment/success/page.tsx:91 | "Оплачен" for paid, the raw status otherwise |
| PaymentSuccess.LoadSuccessPage | src/app/payment/success/page.tsx:23-63 | the component's orders, users and page are those of `SuccessPage` |
| PaymentSuccess.NoOrderNoChange | src/app/payment/success/page.tsx:27-33 | without an order id or with an unknown one nothing is written and no order is shown |
| PaymentSuccess.TerminalOrderNoChange | src/app/payment/success/page.tsx:33 | a paid or canceled order is left alone and no update is reported |
| PaymentSuccess.UpdatedExactlyWhenApplied | src/app/payment/success/page.tsx:33-44 | the update note shows exactly for an existing pending order with a signed-in visitor |
| PaymentSuccess.TransitionCreditsOwner | src/app/payment/success/page.tsx:39-52 | the order becomes paid and its owner gets 30 or 365 days; the card reads "Оплачен" |
| PaymentSuccess.MissingOwnerStillReportsUpdate | src/app/payment/success/page.tsx:43-58 | a failed owner update is swallowed after the order was marked paid |
| PaymentSuccess.ReloadChangesNothing | src/app/payment/success/page.tsx:33 | a second load writes nothing more |
| Reconciliation.ReturnAddressAloneGrantsSubscription | src/app/payment/success/page.tsx:33-52 | right after an accepted create, loading the return address grants the buyer a subscription with no confirmation from the gateway |
| Reconciliation.PageAfterWebhookIsNoOp | src/app/payment/success/page.tsx:33 | after the webhook paid the order, the page changes nothing |
| Reconciliation.WebhookAfterPageRecredits | src/app/api/payment/create/webhook/route.ts:23-48 | a webhook after the page credits the owner again, from the webhook's time |
| Reconciliation.PollThenWebhookConverge | src/app/api/payment/create/status/route.ts:32-48 | the buyer's poll followed by the webhook ends as the webhook alone |
| Reconciliation.PollByOtherSessionCreditsVisitor | src/app/api/payment/create/status/route.ts:37-43 | a poll from another session credits that visitor and leaves the buyer as before |
| Reconciliation.CancelAfterPaid | src/app/api/payment/create/webhook/route.ts:50-57 | a late cancellation turns a paid order canceled, and the page then changes nothing |
| FavoritesActions.UserRows | src/actions/favorites.actions.ts:124-127 | exactly the user's rows, each as often as it is stored |
| FavoritesActions.AttachKeepsLiveRows | src/actions/favorites.actions.ts:128-134 | pairing rows with their news items keeps each row whose item exists, as often as it occurs, and no other |
| FavoritesActions.Listing | src/actions/favorites.actions.ts:124-134 | newest first; every entry is one of the user's rows with its news item; each such row with a live news item appears exactly as often as it is stored |
| FavoritesActions.IsNewsFavorite | src/actions/favorites.actions.ts:91-113 | true exactly when a user is signed in and one of the rows read for that user names the item |
| FavoritesActions.ListingComplete | src/actions/favorites.actions.ts:136 | every news item the user holds appears in the mapped listing |
| FavoritesActions.GetUserFavorites | src/actions/favorites.actions.ts:116-141 | [] when signed out; otherwise the news items of the listing, newest favorite first; only news items the user holds, and all of them |
| FavoritesActions.GetFavoritesCount | src/actions/favorites.actions.ts:144-163 | 0 when signed out; otherwise the number of the user's rows |
| FavoritesActions.AddToFavorites | src/actions/favorites.actions.ts:8-59 | the action's favorites table and result are those of `Add` |
| FavoritesActions.RemoveFromFavorites | src/actions/favorites.actions.ts:62-88 | the action's favorites table and result are those of `Remove` |
| FavoritesActions.AddMakesFavorite | src/actions/favorites.actions.ts:12-57 | fails with the generic message exactly when signed out or the news is missing; otherwise the news is a favorite afterwards |
| FavoritesActions.AddIdempotent | src/actions/favorites.actions.ts:36-38 | adding again changes nothing |
| FavoritesActions.AddInsertsExactlyThePair | src/actions/favorites.actions.ts:41-54 | a new pair is appended as the only new row |
| FavoritesActions.RemoveEndsFavorite | src/actions/favorites.actions.ts:66-87 | fails exactly when the pair is absent, leaving the table; otherwise the news is no longer a favorite |
| FavoritesActions.UserRowsAppend | src/actions/favorites.actions.ts:124-127 | the user's rows of a concatenation are the concatenation of the user's rows |
| FavoritesActions.UserRowsDrop | src/actions/favorites.actions.ts:71-78 | deleting a held pair removes exactly one of the user's rows |
| FavoritesActions.CountFollowsActions | src/actions/favorites.actions.ts:144-163 | the count rises by one on an insert and falls by one on a removal |
| FavoritesActions.CountAfterAdd | src/actions/favorites.actions.ts:144-163 | after an add, the user has one more row exactly when a row was inserted, and otherwise as many as before |
| FavoritesActions.CountAfterRemove | src/actions/favorites.actions.ts:144-163 | with each pair stored once, a successful removal leaves the user one row fewer and a failed one leaves the count as it was |
| FavoritesActions.CountMatchesListing | src/actions/favorites.actions.ts:124-156 | with every favorite pointing at a live news item, the listing is as long as the count |
| FavoritesApi.Get | src/app/api/favorites/route.ts:6-31 | 401 exactly when signed out |
| FavoritesApi.Check | src/app/api/favorites/check/route.ts:5-34 | false when signed out, 400 without newsId, true exactly for a held pair |
| FavoritesApi.HandlePost | src/app/api/favorites/route.ts:34-84 | the route's table and reply are those of `Post` |
| FavoritesApi.HandleDelete | src/app/api/favorites/route.ts:87-117 | the route's table and reply are those of `Delete` |
| FavoritesApi.PostRefusals | src/app/api/favorites/route.ts:38-83 | 401 exactly when signed out, 400 exactly without newsId, 404 for missing news; refusals write nothing |
| FavoritesApi.PostAgreesWithAction | src/app/api/favorites/route.ts:57-79 | for existing news the route writes what `addToFavorites` writes |
| FavoritesApi.PostTwice | src/app/api/favorites/route.ts:67-69 | a post adds at most one row and repeating it adds none |
| FavoritesApi.DeleteAgreesWithAction | src/app/api/favorites/route.ts:98-116 | 400 exactly without newsId; otherwise the route writes what `removeFromFavorites` writes |
| FavoritesApi.ReadsAgreeWithActions | src/app/api/favorites/route.ts:14-26 | GET returns `getUserFavorites` and check returns `isNewsFavorite` |
| FavoritesApi.CheckAfterWrites | src/app/api/favorites/check/route.ts:20-29 | after a successful post the check says true; after a successful delete, false |
| FavoriteButton.Initial | src/components/shared/add-to-favorite-button.tsx:28-29 | idle, showing the initial value, nothing notified |
| FavoriteButton.Button.constructor | src/components/shared/add-to-favorite-button.tsx:28-29 | the first state is `Initial` |
| FavoriteButton.Button.OnClick | src/components/shared/add-to-favorite-button.tsx:36-58 | the new state is `Click` of the old |
| FavoriteButton.Button.OnServerAnswer | src/components/shared/add-to-favorite-button.tsx:59-70 | the new state is `Settle` of the old |
| FavoriteButton.Button.OnInitialChange | src/components/shared/add-to-favorite-button.tsx:32-34 | the new state is `Resync` of the old |
| FavoriteButton.ClickWhilePendingIgnored | src/components/shared/add-to-favorite-button.tsx:37 | a click while pending changes nothing |
| FavoriteButton.ClickFlipsAndCalls | src/components/shared/add-to-favorite-button.tsx:40-58 | an idle click sets pending, flips, notifies the new value and calls remove if it was a favorite, else add |
| FavoriteButton.AnswerRestoresOrKeeps | src/components/shared/add-to-favorite-button.tsx:59-70 | success keeps the flip; failure restores and notifies the old value; idle afterwards |
| FavoriteButton.RevertIgnoresResync | src/components/shared/add-to-favorite-button.tsx:32-61 | the revert negates the optimistic value even after a new initial value arrived |
| FavoriteButton.ResyncOverwrites | src/components/shared/add-to-favorite-button.tsx:32-34 | a new initial value replaces the shown one and nothing else |
| FavoriteButton.StaysInSyncWithStore | src/components/shared/add-to-favorite-button.tsx:43-62 | a button in step with the store is in step again once the call is answered |
| NewsActions.Where | src/actions/news.actions.ts:148-150 | exactly the rows satisfying every condition |
| NewsActions.Select | src/actions/news.actions.ts:94-146 | exactly the rows matching the filters |
| NewsActions.WhereIsSelect | src/actions/news.actions.ts:101-146 | conditions equivalent to the filters select the same rows in the same order |
| NewsActions.FindMany | src/actions/news.actions.ts:148-150 | newest first, a permutation of the matching rows |
| NewsActions.BuildWhere | src/actions/news.actions.ts:101-146 | the pushed conditions hold exactly for matching rows, and none are pushed exactly when no filter is set |
| NewsActions.GetFilteredNews | src/actions/news.actions.ts:94-165 | the matching rows sorted newest first |
| NewsActions.GetNewsItemById | src/actions/news.actions.ts:28-30 | found exactly when a row has the id, and it is that row |
| NewsActions.GetNewsByTitle | src/actions/news.actions.ts:32-43 | newest first; exactly the rows whose title contains the query, ignoring case |
| NewsActions.GetAllNews | src/actions/news.actions.ts:167-182 | every row, newest first |
| NewsActions.FilteredNewsSpec | src/actions/news.actions.ts:148-150 | the filtered result is sorted newest first and a permutation of the matching rows |
| NewsActions.NoFiltersSelectEverything | src/actions/news.actions.ts:146 | with no filter set every row is returned |
| NewsActions.ByCategoryIsFiltered | src/actions/news.actions.ts:46-57 | the category query is the filtered query with that one category |
| NewsActions.ByCategoryAndKeywordIsFiltered | src/actions/news.actions.ts:60-91 | the category-and-keyword query is the filtered query with that category and keyword |
| NewsActions.GetAllCategories | src/actions/news.actions.ts:185-194 | no duplicates; exactly the non-empty categories in use |
| NewsActions.GetAllAuthors | src/actions/news.actions.ts:197-206 | no duplicates; exactly the non-empty authors in use |
| NewsActions.DropEmptyNoDuplicates | src/actions/news.actions.ts:193 | dropping empty names keeps a list free of duplicates |
| NewsActions.CreateNewsItem | src/actions/news.actions.ts:7-26 | the new row is appended with the given fields |
| NewsActions.UpdateNewsItem | src/actions/news.actions.ts:208-221 | the row's fields are replaced, or "Failed to update news item" for an unknown id |
| NewsActions.DeleteNewsItem | src/actions/news.actions.ts:223-225 | the row is removed and returned, or an error for an unknown id |
| NewsActions.CreatedIsFound | src/actions/news.actions.ts:9-30 | a created item is found by its id |
| NewsActions.UpdateOverwrites | src/actions/news.actions.ts:210-213 | after an update the id finds the new fields, and other rows are unchanged |
| NewsActions.DeleteRemoves | src/actions/news.actions.ts:223-225 | after a delete the id finds nothing and every other row remains |
| UrlParams.Get | src/components/shared/news-filter-client.tsx:67-69 | None exactly when no entry has the name; otherwise the value of the first entry with it |
| UrlParams.RemoveAll | src/components/shared/news-filter-client.tsx:69 | exactly the entries with another name |
| UrlParams.GetSetSame | src/components/shared/news-filter-client.tsx:69-78 | after `set`, `get` of that name returns the value set |
| UrlParams.GetSetOther | src/components/shared/news-filter-client.tsx:69-78 | `set` leaves `get` of every other name unchanged |
| NewsFilterClient.UpdateURL | src/components/shared/news-filter-client.tsx:63-85 | the loop builds `Rewritten`; the navigation replaces the current path with a query |
| NewsFilterClient.CopyOthersKeeps | src/components/shared/news-filter-client.tsx:67-71 | every other parameter survives with its last value; the two lists are dropped |
| NewsFilterClient.RewrittenSpec | src/components/shared/news-filter-client.tsx:67-79 | other parameters kept; each list present exactly when non-empty, holding its comma-join |
| NewsFilterClient.RewrittenReadsBack | src/components/shared/news-filter-client.tsx:73-79 | the lists read back from the rewritten URL are the lists written, for non-empty comma-free names |
| NewsFilterClient.ToggleFilter | src/components/shared/news-filter-client.tsx:104-116 | the URL is rewritten with `Toggled` lists |
| NewsFilterClient.RemoveFilter | src/components/shared/news-filter-client.tsx:118-132 | the URL is rewritten with `Removed` lists |
| NewsFilterClient.ClearAllFilters | src/components/shared/news-filter-client.tsx:134-141 | the URL is rewritten with both lists empty |
| NewsFilterClient.OnSearchSubmit | src/components/shared/news-filter-client.tsx:87-102 | a non-blank trimmed query pushes /search/ plus the encoded query with the lists, and a query string only when a filter is active; otherwise the current URL is rewritten |
| NewsFilterClient.ToggleSpec | src/components/shared/news-filter-client.tsx:106-113 | the other kind is untouched; an absent id is appended, a present one removed everywhere; toggling an absent id twice gives the lists back |
| NewsFilterClient.RemoveSpec | src/components/shared/news-filter-client.tsx:120-129 | exactly the occurrences of the id go from its kind's list; the other list is kept; removing again changes nothing |
| NewsFilterClient.ClearAllSpec | src/components/shared/news-filter-client.tsx:138-143 | neither list is in the URL, other parameters are kept, and no filter reads as active |
| NewsFilterServer.ParseList | src/components/shared/news-filter-server.tsx:22-23 | an absent parameter is []; no segment is empty or holds a comma |
| NewsFilterServer.EncodeList | src/components/shared/news-filter-client.tsx:73-79 | no parameter exactly for the empty list |
| NewsFilterServer.ParseKeepsSegments | src/components/shared/news-filter-server.tsx:22-23 | the result holds exactly the non-empty segments, and is the split itself when none is empty |
| NewsFilterServer.ParseEncodeRoundTrip | src/components/shared/news-filter-server.tsx:22-23 | parsing the written list of non-empty, comma-free names gives the list |
| NewsFilterForm.SearchRuleSpec | src/components/shared/news-filter.tsx:44-51 | accepted exactly when absent, "", or the trimmed text is 3 to 50 UTF-16 code units long; the value passed on is trimmed; a refusal names the missed bound |
| NewsFilterForm.TwoEmojiQueryAccepted | src/components/shared/news-filter.tsx:47-49 | a query of two emoji, four code units, is accepted |
| NewsFilterForm.Find | src/components/shared/news-filter.tsx:98-100 | a found choice has the id; none found means no choice has it |
| NewsFilterForm.Label | src/components/shared/news-filter.tsx:98-100 | an unknown id is its own label |
| NewsFilterForm.LabelOfKnownId | src/components/shared/news-filter.tsx:98-100 | in a table of distinct ids and non-empty labels a known id gets its entry's label |
| NewsFilterForm.GetFilterLabelSpec | src/components/shared/news-filter.tsx:96-102 | a known category or author id shows its label; any other id shows itself |
| NewsFilterForm.Submitted | src/components/shared/news-filter.tsx:77-83 | when the schema accepts, the active lists become the form lists, absent as []; otherwise nothing changes |
| NewsFilterForm.NewsFilter.constructor | src/components/shared/news-filter.tsx:60-75 | empty search, empty lists, no active filter |
| NewsFilterForm.NewsFilter.Type | src/components/shared/news-filter.tsx:111-123 | only the search text changes |
| NewsFilterForm.NewsFilter.Submit | src/components/shared/news-filter.tsx:77-83 | the new state is `Submitted` of the old |
| NewsFilterForm.NewsFilter.RemoveFilter | src/components/shared/news-filter.tsx:85-94 | the new state is `RemovedFilter` of the old |
| NewsFilterForm.NewsFilter.OnCheckedChange | src/components/shared/news-filter.tsx:191-235 | the new state is `Checked` of the old |
| NewsFilterForm.SubmitIdempotent | src/components/shared/news-filter.tsx:77-83 | submitting twice is submitting once |
| NewsFilterForm.UnselectedSpec | src/components/shared/news-filter.tsx:85-92 | the id leaves the form list and the active list of its kind only; everything else kept |
| NewsFilterForm.RemovedFilterSpec | src/components/shared/news-filter.tsx:85-94 | afterwards the id is in neither list of its kind; an accepted re-submission shows all form lists as active |
| NewsFilterForm.CheckedSpec | src/components/shared/news-filter.tsx:191-235 | checking appends the id, unchecking removes every occurrence, the other field is untouched |
| UserActions.ParseCredentials | src/lib/schema.ts:3-6 | accepted exactly for an email that passes the format check and a password of at least 7 UTF-16 code units |
| UserActions.HandleSignUp | src/actions/user.actions.ts:10-58 | the action's users table and state are those of `SignUp` |
| UserActions.InvalidInputCreatesNothing | src/actions/user.actions.ts:16-50 | a schema failure creates nothing and reports the email's issue first, then a short password's |
| UserActions.TakenEmailRefused | src/actions/user.actions.ts:18-27 | an email stored in lower case refuses any spelling of it, creating nothing |
| UserActions.AcceptedSignUpCreatesOne | src/actions/user.actions.ts:29-41 | exactly one user is added, with the lower-cased email and the password's hash, others kept |
| UserActions.SignUpKeepsEmailsUnique | src/actions/user.actions.ts:18-36 | emails stay unique; a second sign-up of the same address in any case is refused |
| UserActions.SignUpKeepsEmailsLowerCase | src/actions/user.actions.ts:33 | sign-up stores only lower-case emails |
| UserActions.GetUserInfo | src/actions/user.actions.ts:60-95 | unknown id is "User not found"; otherwise the user's columns and subscription flag |
| UserActions.InfoCountsFavorites | src/actions/user.actions.ts:87 | the favorites figure equals the favorites count and follows add and remove |
| AuthConfig.CheckPassword | auth.ts:27-38 | success exactly for a found row with a hash the password verifies against; else "Invalid credentials." |
| AuthConfig.AuthorizeAsWritten | auth.ts:20-41 | a user returned holds exactly the email typed |
| AuthConfig.Authorize | auth.ts:20-41 | a user returned holds the lower-cased email typed |
| AuthConfig.AuthorizeSpec | auth.ts:27-38 | sign-in fails with "Invalid credentials." exactly when no user with that email has a hash the password verifies |
| AuthConfig.SignUpThenSignIn | auth.ts:23-25 | whoever signs up signs in with the same credentials |
| AuthConfig.MixedCaseSignInFailsAsWritten | auth.ts:23-25 | as written, an email typed with a capital letter can never sign in after sign-up |
| AuthConfig.CapitalisedAddressExample | auth.ts:23-25 | "Ann@mail.ru" signs up and then fails to sign in, as written |
| AuthConfig.Jwt | auth.ts:45-50 | the flag is set exactly for the credentials provider; other tokens pass unchanged |
| AuthConfig.HandleEncode | auth.ts:53-75 | the hook's sessions and result are those of `Encode` |
| AuthConfig.EncodeSpec | auth.ts:53-75 | a missing or empty subject is an error with nothing stored; otherwise one session for that user expiring in 30 days under the returned token, or, for a subject with no user row, the rejection of the session insert and nothing stored; never the unreachable "Failed to create session"; other tokens go to the default encoder |
| AuthConfig.SignInCreatesSession | auth.ts:45-72 | a credentials sign-in of a stored user with a non-empty id yields a session for that user; other providers store none |
| ProfileActions.Written | src/actions/profile.actions.ts:22-23 | a value is written exactly when present and non-empty |
| ProfileActions.HandleUpdateProfile | src/actions/profile.actions.ts:11-32 | the action's users table and result are those of `UpdateProfile` |
| ProfileActions.NoSessionNoWrite | src/actions/profile.actions.ts:15-32 | without a session user id, missing or empty, nothing is written and the generic error is returned; success needs a non-empty id with a row |
| ProfileActions.UpdateSpec | src/actions/profile.actions.ts:19-25 | for a signed-in user (non-empty id with a row): name and image change exactly when given non-empty; no other column or row changes |
| ProfileActions.EmptyAndRepeatedUpdates | src/actions/profile.actions.ts:19-25 | for a signed-in user: an empty update leaves the user as is and succeeds; repeating an update changes nothing more |
| EditProfileForm.Token | src/components/shared/edit-profile-form.tsx:45-46 | a token never holds a space; no name gives "" |
| EditProfileForm.FieldErrors | src/components/shared/edit-profile-form.tsx:34-37 | each field reports its own message exactly when it is empty |
| EditProfileForm.Submit | src/components/shared/edit-profile-form.tsx:52-57 | a name is sent exactly when both fields are non-empty |
| EditProfileForm.TwoTokenRoundTrip | src/components/shared/edit-profile-form.tsx:45-54 | "A B" opens as A and B and is saved back unchanged |
| EditProfileForm.ExtraTokensDropped | src/components/shared/edit-profile-form.tsx:46-54 | tokens after the second are dropped on save |
| EditProfileForm.BlankFieldsSaveEmptyName | src/components/shared/edit-profile-form.tsx:35-54 | fields of spaces pass the schema and save the empty name |
| EditProfileForm.SaveUpdatesName | src/components/shared/edit-profile-form.tsx:54-57 | for a signed-in user, saving writes the joined name when non-empty and leaves the stored name otherwise |
| Lists.ToggleTwiceAbsent | src/components/shared/news-filter-client.tsx:107 | toggling an absent value twice gives the list back |
| Lists.WithoutKeepsOthers | src/components/shared/news-filter-client.tsx:122-123 | filtering a value out keeps every other element with its multiplicity |
| Text.SplitJoin | src/components/shared/news-filter-server.tsx:22-23 | splitting a join of separator-free pieces gives the pieces |
| Text.Utf16Length | src/lib/schema.ts:5 | JavaScript's length: between the number of characters and twice it, equal to it exactly when no character lies beyond the Basic Multilingual Plane |
| Text.DecimalRoundTrip | src/app/api/payment/create/route.ts:55 | the printed price reads back as the price |

## Left out

- Wall-clock detail: `setDate` is taken as adding whole days of 86 400 000 ms, so daylight-saving shifts are not modelled.
- Text.Lower: folds only Latin and Russian capitals (what `mode: "insensitive"` and `toLowerCase` do for the site's content); other scripts keep their case.
- Percent-encoding of query strings, and the `URLSearchParams` operations other than `get`, `set` and `forEach`.
- Database faults other than a missing row (connection loss, the `!prisma` check of the payment route), and races between concurrent requests such as the webhook, the poll and the page load.
- The payment gateway SDK and the library's default JWT encoder: their results are parameters.
- bcrypt, uuid, the zod email format check and `encodeURIComponent`: their results are parameters.
- The `select` column lists of the news queries: the full row is returned.
- NewsActions.DeleteNewsItem: reports a fixed message for an unknown id instead of the ORM's own error text.
- AuthConfig.HandleEncode: a subject with no user row makes the session insert fail. The model returns a fixed error for it, standing for the ORM's rejection under the relation from sessions to users. The source's own "Failed to create session" (auth.ts:68-69) cannot be reached, because the adapter's `createSession` either rejects or returns the row. The database schema is not part of this model, so whether that relation exists is assumed, not shown.
- NewsActions.DeleteNewsItem: removes only the news row. The database schema is not part of this model, so the foreign key from favorites to news is not enforced. The database would either delete the item's favorites with it or refuse the delete; the model does neither and leaves favorites that name a missing item.
- FavoritesActions.Listing: skips a favorite whose news item is missing, which the model can hold after a delete (see above). FavoritesActions.CountMatchesListing therefore assumes every favorite names an existing item.
- PaymentCreate.Create and FavoritesApi.Post: members of the request body are taken to be strings when present. A member that is present but not a string and truthy, such as `{"subscriptionType": 1}` or `{"newsId": 5}`, passes the route's `!value` test and is then refused by the ORM, which gives 500 "Failed to create payment" or "Failed to add to favorites"; the model cannot express such a body.
- The payment-create route's JSON body `null` (which reads as an error when `subscriptionType` is looked up) is taken as an unreadable body.
- UserActions.HandleSignUp: the generic "Произошла ошибка при регистрации" path needs a database fault and is not reached.
- Subscription cancellation from the profile page: the action it calls is not defined in the profile actions.
- Toasts, logging, `revalidatePath`, router scroll options and rendering.
- The `createdAt`, `role` and `publishedAt` columns are not stored; `getUserInfo` returns the modelled columns only.

## Findings

| source | as written | input that shows it | evidently intended | confidence | as-written member | corrected member |
|---|---|---|---|---|---|---|
| auth.ts:23-25 | `authorize` looks the user up by the email as typed, while sign-up stores it lower-cased (src/actions/user.actions.ts:33) | sign up as "Ann@mail.ru", then sign in with "Ann@mail.ru" and the same password: no row has that email, so "Invalid credentials." | look the user up by the lower-cased email, so whoever signs up can sign in | not executed | AuthConfig.MixedCaseSignInFailsAsWritten | AuthConfig.SignUpThenSignIn |
