# Finance tracker backend: a Dafny model of the controllers

The backend of the finance tracker is a set of Express handlers over six MySQL tables:
users, categories, transactions, payment methods, currencies and account types. Each handler
checks its request in a fixed order, works out who the caller is from a Firebase uid, reads or
writes rows scoped by ownership, and answers with a status and a JSON body.

This project models those handlers, one Dafny module per controller file:

| module | file | what it holds |
|---|---|---|
| `Fields` | fields.dfy | request fields (`Undefined`, `Null` or `Given`), JavaScript truthiness, and the two merges `x \|\| old` and `x !== undefined ? x : old` |
| `Ordering` | ordering.dfy | lexicographic sort keys for `ORDER BY` and a sort proved sorted and a permutation |
| `Tables` | tables.dfy | tables as `map<nat, Row>` with an AUTO_INCREMENT counter; scans in primary-key order, filters, `Select` (WHERE + ORDER BY) |
| `Schema` | schema.dfy | one datatype per row type; the `ENUM('income','expense')` column; amounts in cents |
| `Http` | http.dfy | the status/body reply |
| `Store` | store.dfy | the `Database` class: the six tables and their counters, with the invariant `Valid()`. It holds the schema's constraints (unique firebase_uid, the foreign keys, the DECIMAL(10,2) range) and the positive amount that the handlers' checks ensure for whole-cent inputs |
| `Identity` | identity.dfy | `getUserIdFromFirebaseUid` |
| `Transactions` | transactions.dfy | create, list, get, update, delete and summary of transactions |
| `Categories` | categories.dfy | create, list, get, update and delete of categories, with `ON DELETE SET NULL` on transactions |
| `PaymentMethods` | payment_methods.dfy | create, list, get, update and delete of payment methods |
| `Users` | users.dfy | the Firebase sync (upsert by uid), the two lookups and the admin listing |
| `Currencies` | currencies.dfy | listing, lookup by upper-cased code, and create with the single-default rule |
| `AccountTypes` | account_types.dfy | listing, lookup by id and create |

Handlers that change tables are methods on a `Store.Database`. Each frames exactly the fields
it writes, keeps `Valid()`, and states the whole new state and reply in terms of the old state.
Read-only handlers are functions of the database. They are specified by the rows they return:
exactly the matching rows, without repeats, in the `ORDER BY` order, with `count` equal to the
number of rows. Request values are modelled as follows:

- amounts are integer cents;
- dates are day numbers;
- `NOW()` is a logical clock value passed in by the caller.

A write that MySQL in strict mode would refuse becomes the handler's `catch` reply: status 500
"Internal server error", with nothing changed. Such writes are:

- a type outside the ENUM;
- a category_id that names no category;
- an amount that does not fit DECIMAL(10,2).

Where the row order of a query without `ORDER BY` matters, it is taken to be primary-key order.
This applies to the first match of a lookup by email or by currency code.

## Model

| member | source | states |
|---|---|---|
| `Store.Database.constructor` | f468161tb/src/database/init.js:12-69 | an empty database satisfies the schema invariant, with every AUTO_INCREMENT counter at 1 |
| `Fields.MergesCompared` | f468161tb/src/controllers/transactionController.js:221-225 | `\|\|` and `!== undefined` agree on an omitted or truthy value; on an explicit null `\|\|` keeps the old value while `!== undefined` clears it; on the zero value `\|\|` keeps the old value while `!== undefined` stores the zero |
| `Fields.OrFalse` | f468161tb/src/controllers/categoryController.js:41 | `is_default \|\| false` is true exactly when the request sends `true` |
| `Schema.ParseFlow` | f468161tb/src/controllers/transactionController.js:26 | only "income" and "expense" are accepted, each mapping to its own type |
| `Schema.BoolRank` | f468161tb/src/controllers/categoryController.js:90 | `is_default DESC` ranks true above false above NULL |
| `Ordering.SortBy` | f468161tb/src/controllers/transactionController.js:129 | the sorted rows are in key order and are a permutation of the input |
| `Ordering.RankedKeyOrder` | f468161tb/src/controllers/categoryController.js:90 | the key of `ORDER BY rank DESC, name ASC` puts the higher rank first, then the names in order |
| `Tables.Select` | f468161tb/src/controllers/transactionController.js:101-131 | a query returns every stored row that satisfies its WHERE clause and no other, sorted by its ORDER BY key, no row twice |
| `Tables.FirstWhere` | f468161tb/src/controllers/userController.js:120-134 | the first matching row is a row that matches; none is found exactly when no row matches |
| `Identity.UserWithUid` | f468161tb/src/controllers/transactionController.js:6-10 | finds a stored user carrying the uid, and none exactly when no user carries it |
| `Identity.ResolveUser` | f468161tb/src/controllers/transactionController.js:4-11 | a falsy uid resolves to nothing; otherwise the result is the one user with that uid, or nothing when no user has it |
| `Transactions.Joined` | f468161tb/src/controllers/transactionController.js:63-69 | the LEFT JOIN adds the category's name and type when the row's category exists, and NULL for both otherwise |
| `Transactions.Storable` | f468161tb/src/database/init.js:55-63 | the storage engine takes an uncategorised row with an in-range amount, and refuses a category_id that names no category or an amount over DECIMAL(10,2) |
| `Transactions.CreateRejection` | f468161tb/src/controllers/transactionController.js:19-48 | the checks run in order with their messages: presence (a numeric amount of 0 counts as missing), then type, then positive amount (400 each), then user (404); none fails exactly when all hold |
| `Transactions.NewRow` | f468161tb/src/controllers/transactionController.js:50-61 | the inserted row has the new id and the resolved user, with created_at and updated_at the current time |
| `Transactions.NewRowShape` | f468161tb/src/controllers/transactionController.js:50-61 | the stored row belongs to the caller, carries the requested positive amount, type and date, and stores a falsy category_id or description as NULL |
| `Transactions.CreateTransaction` | f468161tb/src/controllers/transactionController.js:14-75 | a rejected request changes nothing; an accepted one inserts exactly one row under the next id (or 500 when the category does not exist) and replies 201 with the joined row, which a later get by id returns unchanged |
| `Transactions.KeyOrder` | f468161tb/src/controllers/transactionController.js:129 | the transaction key orders by transaction_date descending, then created_at descending |
| `Transactions.InPeriod` | f468161tb/src/controllers/transactionController.js:114-122 | with no bounds every date passes; both bounds are inclusive; a date before start_date or after end_date fails |
| `Transactions.Matches` | f468161tb/src/controllers/transactionController.js:105-127 | a listed row is the caller's and within the dates; with no type and no category filter, or with a type outside the ENUM, the listing's condition is the summary's |
| `Transactions.JoinAllOrdered` | f468161tb/src/controllers/transactionController.js:101-104 | joining keeps the newest-first order and the absence of repeats |
| `Transactions.Listed` | f468161tb/src/controllers/transactionController.js:101-127 | the listed rows are exactly the caller's stored rows that pass every supplied filter: a valid type, inclusive date bounds, an exact category |
| `Transactions.GetTransactions` | f468161tb/src/controllers/transactionController.js:87-137 | 404 for an unresolved caller; otherwise 200 with exactly the matching rows joined with their category, newest first, no repeats, and count equal to their number |
| `Transactions.OwnedRow` | f468161tb/src/controllers/transactionController.js:195-198 | the row is found exactly when the caller resolves and owns the id |
| `Transactions.GetTransactionById` | f468161tb/src/controllers/transactionController.js:149-174 | 200 with the joined row exactly when the caller resolves and owns the id; otherwise 404 "Transaction not found" |
| `Transactions.Merge` | f468161tb/src/controllers/transactionController.js:216-229 | category_id, amount and description are replaced whenever supplied (an explicit null clears them); type and date only when truthy; id, owner and created_at are kept; an invalid truthy type is refused by the ENUM |
| `Transactions.MergeNothing` | f468161tb/src/controllers/transactionController.js:221-225 | an empty patch changes only updated_at |
| `Transactions.UpdateTransaction` | f468161tb/src/controllers/transactionController.js:186-243 | 404 with no change unless the caller owns the row; then a supplied amount of 0 or less gives 400 with no change; otherwise only that row is replaced by the merge (500 with no change when storage refuses it) |
| `Transactions.DeleteTransaction` | f468161tb/src/controllers/transactionController.js:255-280 | 404 with no change unless the caller owns the row; otherwise exactly that row is removed |
| `Transactions.CountsPartition` | f468161tb/src/controllers/transactionController.js:306-326 | the income count and the expense count add up to the number of rows |
| `Transactions.EmptyGroupTotal` | f468161tb/src/controllers/transactionController.js:330-331 | a type with no rows totals 0 |
| `Transactions.TotalCoversRow` | f468161tb/src/controllers/transactionController.js:306-326 | with positive amounts, each row's amount is part of its type's total and count |
| `Transactions.TotalNonNegative` | f468161tb/src/controllers/transactionController.js:309 | with positive amounts, a type's total is never negative |
| `Transactions.Total` | f468161tb/src/controllers/transactionController.js:309 | `SUM(amount)` of a type is at most its count times the largest DECIMAL(10,2) amount |
| `Transactions.Count` | f468161tb/src/controllers/transactionController.js:310 | `COUNT(*)` of a type is at most the number of rows, and 0 exactly when no row has that type |
| `Transactions.GroupByType` | f468161tb/src/controllers/transactionController.js:306-326 | `GROUP BY type` yields one row per type that occurs, holding that type's SUM and COUNT |
| `Transactions.GroupOrZero` | f468161tb/src/controllers/transactionController.js:330-331 | `find(...) \|\| {total: 0, count: 0}`: the group of that type when there is one, zero otherwise |
| `Transactions.GroupOf` | f468161tb/src/controllers/transactionController.js:326-331 | picking a type from the grouped rows gives that type's total and count, zero when the type has no rows |
| `Transactions.PeriodRows` | f468161tb/src/controllers/transactionController.js:306-324 | the summarised rows are exactly the caller's rows within the inclusive date bounds, none twice when the table is keyed by id |
| `Transactions.Summarize` | f468161tb/src/controllers/transactionController.js:330-346 | total and count per type, balance = income total - expense total exactly, and the two counts add up to the number of rows |
| `Transactions.GetTransactionSummary` | f468161tb/src/controllers/transactionController.js:292-347 | 404 for an unresolved caller; otherwise per-type totals and counts over the caller's rows in the period, with balance = income - expense |
| `Transactions.SummaryCountsListing` | f468161tb/src/controllers/transactionController.js:306-331 | income.count + expense.count equals the count of the transaction listing with the same caller and date bounds |
| `Transactions.SummaryIncludesRow` | f468161tb/src/controllers/transactionController.js:316-338 | every transaction of the caller in the period is counted in its type's group, and its amount is part of that group's total |
| `Categories.CreateRejection` | f468161tb/src/controllers/categoryController.js:19-31 | 400 "name and type are required" when either is falsy, 400 on a type outside income/expense, and nothing otherwise |
| `Categories.NewRow` | f468161tb/src/controllers/categoryController.js:38-42 | the inserted category has the new id, the requested name and type, and the current time as created_at and updated_at |
| `Categories.NewRowShape` | f468161tb/src/controllers/categoryController.js:33-42 | the new category belongs to the resolved caller (global when the uid does not resolve); the icon is always the folder emoji, the color NULL, a falsy description NULL, is_default true only when sent as true |
| `Categories.CreateCategory` | f468161tb/src/controllers/categoryController.js:14-53 | a rejected request changes nothing; otherwise exactly one category is inserted under the next id and returned with 201, and a get by id returns it |
| `Categories.TypeFilter` | f468161tb/src/controllers/categoryController.js:85-88 | an absent type or a type outside the ENUM adds no condition |
| `Categories.Visible` | f468161tb/src/controllers/categoryController.js:80-88 | the WHERE clause as written: never another user's private category; the caller's own categories whatever the type; a global category exactly when no valid type is asked or it has that type |
| `Categories.DefaultsFirstWhenSorted` | f468161tb/src/controllers/categoryController.js:90 | rows in key order are ordered by is_default descending, then name ascending |
| `Categories.GetCategories` | f468161tb/src/controllers/categoryController.js:65-98 | 400 for a falsy uid; otherwise 200 with exactly the visible categories under the WHERE clause as written, defaults first, by name, no repeats, and never another user's private category |
| `Categories.OwnCategoriesIgnoreType` | f468161tb/src/controllers/categoryController.js:80-88 | a known user's own categories are listed whatever type is requested |
| `Categories.GlobalCategoriesFiltered` | f468161tb/src/controllers/categoryController.js:80-88 | a global category is listed exactly when no valid type is requested or it has that type |
| `Categories.UnknownCallerSeesGlobals` | f468161tb/src/controllers/categoryController.js:77-88 | a caller whose uid resolves to no user sees only global categories, and only of the requested type |
| `Categories.IntendedVisible` | f468161tb/src/controllers/categoryController.js:79-88 | the intended condition admits only categories the written one admits, only of the requested type, and the same ones when no valid type is requested |
| `Categories.PrecedenceLetsOtherTypesThrough` | f468161tb/src/controllers/categoryController.js:80-88 | a user's own income category passes the written condition for `type=expense` and fails the intended one |
| `Categories.GetCategoriesAsIntended` | f468161tb/src/controllers/categoryController.js:79-92 | the listing the handler's comment describes: the caller's and the global categories, both narrowed by the type filter |
| `Categories.IntendedFilterNarrows` | f468161tb/src/controllers/categoryController.js:79-88 | the corrected listing contains only categories of the requested type, is part of the listing as written, and equals it when no valid type is requested |
| `Categories.GetCategoryById` | f468161tb/src/controllers/categoryController.js:110-129 | 200 with the row exactly when the id exists, for any caller; 404 otherwise |
| `Categories.Merge` | f468161tb/src/controllers/categoryController.js:160-173 | name and type are replaced only when truthy; icon, color, description and is_default whenever supplied; an invalid truthy type is refused by the ENUM |
| `Categories.MergeNothing` | f468161tb/src/controllers/categoryController.js:164-172 | an empty patch changes only updated_at |
| `Categories.MergeNulls` | f468161tb/src/controllers/categoryController.js:165-170 | explicit nulls keep name and type but clear the other four fields; empty strings keep name and type but are stored as is in the others |
| `Categories.UpdateCategory` | f468161tb/src/controllers/categoryController.js:141-184 | 404 with no change for an absent id; otherwise only that category is replaced by the merge, with no ownership check (500 with no change when the ENUM refuses the type) |
| `Categories.Detach` | f468161tb/src/database/init.js:63 | `ON DELETE SET NULL` on one transaction: its reference to the deleted category is cleared and nothing else changes |
| `Categories.Detached` | f468161tb/src/database/init.js:63 | every transaction is kept, with references to the deleted category cleared |
| `Categories.DeleteCategory` | f468161tb/src/controllers/categoryController.js:196-218 | 404 with no change for an absent id; otherwise exactly that category is removed and the transactions that referenced it keep their rows with category_id NULL |
| `Categories.DeleteKeepsSummaries` | f468161tb/src/database/init.js:63 | deleting a category changes no user's transaction summary for any period |
| `PaymentMethods.CreateRejection` | f468161tb/src/controllers/paymentMethodController.js:19-31 | 400 when name or type is falsy, 400 on a type outside cash/card/bank/digital/other, and nothing otherwise |
| `PaymentMethods.NewRow` | f468161tb/src/controllers/paymentMethodController.js:35-39 | the inserted row has the new id, the requested name and type, and the current time as created_at and updated_at |
| `PaymentMethods.NewRowShape` | f468161tb/src/controllers/paymentMethodController.js:33-39 | the new row belongs to the resolved caller (NULL when unresolved) and has a known type; a falsy icon or description is NULL, is_default true only when sent as true |
| `PaymentMethods.CreatePaymentMethod` | f468161tb/src/controllers/paymentMethodController.js:14-50 | a rejected request changes nothing; otherwise exactly one row is inserted under the next id and returned with 201, and a get by id returns it |
| `PaymentMethods.DefaultsFirstWhenSorted` | f468161tb/src/controllers/paymentMethodController.js:69 | rows in key order are ordered by is_default descending, then name ascending |
| `PaymentMethods.Owned` | f468161tb/src/controllers/paymentMethodController.js:68-70 | `user_id = ?` holds for no row when the caller is unresolved, for no row whose user_id is NULL, and otherwise exactly for the caller's rows |
| `PaymentMethods.GetPaymentMethods` | f468161tb/src/controllers/paymentMethodController.js:62-77 | 200 with exactly the caller's payment methods by default flag and name; an unresolved uid lists nothing, not even rows whose user_id is NULL |
| `PaymentMethods.GetPaymentMethodById` | f468161tb/src/controllers/paymentMethodController.js:89-108 | 200 with the row exactly when the id exists; 404 otherwise |
| `PaymentMethods.Merge` | f468161tb/src/controllers/paymentMethodController.js:137-149 | name and type are replaced only when truthy; icon, description and is_default whenever supplied; id, owner and created_at are kept |
| `PaymentMethods.UpdateSkipsTypeCheck` | f468161tb/src/controllers/paymentMethodController.js:143 | an update can store a type that create refuses |
| `PaymentMethods.UpdatePaymentMethod` | f468161tb/src/controllers/paymentMethodController.js:120-160 | 404 with no change for an absent id; otherwise only that row is replaced by the merge |
| `PaymentMethods.DeletePaymentMethod` | f468161tb/src/controllers/paymentMethodController.js:172-193 | 404 with no change for an absent id; otherwise exactly that row is removed |
| `Users.Profile` | f468161tb/src/controllers/userController.js:24-29 | a sync writes the email, a falsy display name or photo URL as NULL, and email_verified true only when sent as true; id, uid and created_at are kept |
| `Users.RewriteKeepsTable` | f468161tb/src/controllers/userController.js:22-29 | rewriting a user's profile keeps the table keyed and the uids unique |
| `Users.InsertKeepsTable` | f468161tb/src/database/init.js:14-15 | inserting a user with a new uid under the next id keeps the table keyed and the uids unique |
| `Users.Synced` | f468161tb/src/controllers/userController.js:4-59 | 400 with no change when uid or email is falsy; a known uid updates that user in place (200); an unknown uid inserts one user under the next id (201) |
| `Users.SyncLeavesOneUser` | f468161tb/src/controllers/userController.js:17-58 | after a valid sync the uid resolves to exactly the returned user, which is stored |
| `Users.SyncTouchesOnlyItsUser` | f468161tb/src/controllers/userController.js:22-58 | every user with another uid is unchanged; an update adds no row and an insert adds exactly one |
| `Users.SyncIdempotent` | f468161tb/src/controllers/userController.js:17-40 | repeating a valid sync changes nothing but that user's updated_at and answers 200 |
| `Users.SyncUser` | f468161tb/src/controllers/userController.js:4-59 | the users table, its counter and the reply become those of the sync |
| `Users.GetUserByFirebaseUid` | f468161tb/src/controllers/userController.js:71-97 | 400 for an empty uid; 404 when no user has it; otherwise 200 with the stored user whose uid it is |
| `Users.GetUserByEmail` | f468161tb/src/controllers/userController.js:109-135 | 400 for an empty email; 404 when no user has it; otherwise 200 with a stored user with that email |
| `Users.Public` | f468161tb/src/controllers/userController.js:150 | the listed columns are every user column but photo_url |
| `Users.PublicAllOrdered` | f468161tb/src/controllers/userController.js:150 | users in key order are listed by created_at descending |
| `Users.GetAllUsers` | f468161tb/src/controllers/userController.js:147-157 | 200 with one entry per stored user without its photo URL, newest first, and count equal to the number of users |
| `Currencies.UpperChar` | f468161tb/src/controllers/currencyController.js:32 | a lower-case ASCII letter becomes its capital; every other character is kept; no lower-case letter remains |
| `Currencies.Upper` | f468161tb/src/controllers/currencyController.js:32 | upper-casing keeps the length and upper-cases each character |
| `Currencies.UpperIdempotent` | f468161tb/src/controllers/currencyController.js:32 | upper-casing an upper-cased code changes nothing |
| `Currencies.DefaultFirstWhenSorted` | f468161tb/src/controllers/currencyController.js:7 | rows in key order have the default first, then ascend by code |
| `Currencies.GetCurrencies` | f468161tb/src/controllers/currencyController.js:4-14 | 200 with every currency once, the default first, then by code |
| `Currencies.GetCurrencyByCode` | f468161tb/src/controllers/currencyController.js:26-45 | 200 with a stored currency whose code is the upper-cased request exactly when one exists; 404 otherwise |
| `Currencies.LookupIgnoresCase` | f468161tb/src/controllers/currencyController.js:30-33 | a code and its upper-cased form get the same reply |
| `Currencies.ClearDefaults` | f468161tb/src/controllers/currencyController.js:69-73 | every currency is kept, with its default flag cleared |
| `Currencies.NewRow` | f468161tb/src/controllers/currencyController.js:75-79 | the code is stored upper-cased, a falsy symbol as NULL, and the default flag only when sent as true |
| `Currencies.Inserted` | f468161tb/src/controllers/currencyController.js:69-79 | after a create the table holds the new row under its id, and every other row as before, with its default flag cleared when the new row is the default |
| `Currencies.CreatedDefaultIsOnlyDefault` | f468161tb/src/controllers/currencyController.js:69-79 | after creating a default currency it is the only default |
| `Currencies.CreatedPlainKeepsDefaults` | f468161tb/src/controllers/currencyController.js:69-79 | creating a non-default currency leaves every existing row as it was |
| `Currencies.CreateKeepsSingleDefault` | f468161tb/src/controllers/currencyController.js:69-79 | with at most one default before a create, there is at most one after it |
| `Currencies.CreateCurrency` | f468161tb/src/controllers/currencyController.js:57-90 | 400 with no change when code or name is falsy; otherwise the defaults are cleared if is_default is truthy, one row is inserted under the next id, and its code is found by the lookup |
| `AccountTypes.GetAccountTypes` | f468161tb/src/controllers/accountTypeController.js:4-14 | 200 with every account type once, by name |
| `AccountTypes.GetAccountTypeById` | f468161tb/src/controllers/accountTypeController.js:26-45 | 200 with the row exactly when the id exists; 404 otherwise |
| `AccountTypes.NewRow` | f468161tb/src/controllers/accountTypeController.js:68-72 | a falsy description or icon is stored as NULL, any other as given |
| `AccountTypes.CreateAccountType` | f468161tb/src/controllers/accountTypeController.js:57-83 | 400 with no change for a falsy name; otherwise one row is inserted under the next id and returned with 201, and a get by id returns it |

## Left out

- The MySQL connection pool, environment configuration, logging, Express routing and middleware are not modelled; the handlers are called directly with the parsed request.
- The `catch` branch is modelled only for the storage refusals listed above (ENUM, foreign key, DECIMAL range); other storage faults, such as a lost connection or a VARCHAR length limit, are not.
- Concurrency: check-then-update, check-then-delete, and clear-defaults-then-insert in createCurrency are not atomic in the source; the model runs each handler on its own.
- String-to-number parsing: amounts arrive as parsed cents and dates as day numbers. `parseFloat` of a non-numeric string is NaN, which passes the `<= 0` checks in the source; this is not modelled. Neither is an explicit null amount on update, nor float arithmetic on the summary balance (cents are exact).
- Transactions.CreateRejection, Transactions.UpdateTransaction, Store.Integral: amounts are whole cents, already parsed. The source tests `!amount` on the raw body value, and the app's client sends amounts as strings. So the string "0" passes the presence check and gets "amount must be greater than 0", where the model answers "amount, type, and transaction_date are required". A string such as "0.004" passes the `> 0` check, and DECIMAL(10,2) rounds it to 0.00 when it is stored, so a stored amount of 0 is possible in the source. The model's `0 < amount` in `Valid()` rests on the whole-cent inputs, not on the schema.
- Collation: the tables use `utf8mb4_unicode_ci`, so in the source text comparisons in WHERE and ORDER BY ignore case. The model compares and orders names and codes by code point.
- Currencies.UpperChar: upper-cases ASCII letters only, where JavaScript's `toUpperCase` also maps other scripts.
- Timestamps: `NOW()` and CURRENT_TIMESTAMP are one logical clock value per request. Whether `ON DELETE SET NULL` refreshes a transaction's updated_at is not modelled; the detached row keeps its timestamp.
- The schemas of payment_methods, currencies and account_types are not part of this model. Their rows carry the columns the handlers use, with no ENUM or foreign key on them, and currency codes are not assumed unique.
- `req.user` is never set by any middleware in the source, so the caller is always the firebase_uid of the body or query string.
- MySQL is assumed to run in strict mode: a type outside the ENUM is refused, not stored as ''.
- Transactions.UpdateTransaction and Categories.UpdateCategory: the handlers do not check the new type, so an invalid truthy type reaches the database. The model gives the strict-mode 500 reply with no change.
- Ties in ORDER BY (transactions with the same transaction_date and created_at, categories with the same flag and name) are broken in a fixed order in the model. MySQL leaves their order unspecified.
- Deleting a user and its CASCADE onto categories and transactions is not modelled: no handler deletes users.
- The frontend is not part of this model.

## Findings

| source | as written | input that shows it | evidently intended | confidence | as-written member | corrected member |
|---|---|---|---|---|---|---|
| f468161tb/src/controllers/categoryController.js:80-88 | `WHERE user_id = ? OR user_id IS NULL AND type = ?`: AND binds tighter than OR, so the type filter applies only to the global categories | a known user with an income category of their own lists `?type=expense` and gets that income category back | `(user_id = ? OR user_id IS NULL) AND type = ?`, the user's categories and the defaults both filtered by type, as the comment on line 79 and the filter on line 68 describe | high; not executed | `Categories.PrecedenceLetsOtherTypesThrough` (with `Categories.GetCategories`, `Categories.OwnCategoriesIgnoreType`) | `Categories.GetCategoriesAsIntended` (with `Categories.IntendedFilterNarrows`) |
