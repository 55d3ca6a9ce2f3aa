# Agro-exports catalog site: admin fan-out and session gate in Dafny

This project models the part of the Flask catalog-and-inquiry site (`app.py`) whose rules can be
stated exactly:

- **Admin product creation.** `add_product` inserts one product row and takes its new id. It then
  fans the submitted form out into child rows. Specification name/value lists are zipped
  positionally, and a pair becomes a row only when both sides are non-empty. The four packaging
  lists are zipped the same way. A packaging row needs a type and a weight, and its two container
  values are stored as given. Every upload slot with a filename becomes one image row holding the
  sanitized name.
- **The admin session gate.** This is a two-state machine on `session['admin_logged_in']`. Login
  sets the flag only when the admin row exists and the password hash checks. Logout clears it.
  Every admin route checks it first and otherwise redirects to login without touching a table.
- **The other two writes.** Inquiry submission appends one inquiry row. Product deletion deletes
  product rows by id.

All of this assumes the MySQL connection object the routes use. app.py as written never creates
it; "## Left out" says what that means.

Layout, one module per file:

- `seqs.dfy` (`Seqs`): Python's `zip` (two and four lists), SQL's `WHERE` as an order-keeping
  filter, `fetchone` as the first match, and `KeptIndices`, the positions a selection rule keeps.
- `schema.dfy` (`Schema`): the table rows, the upload slot and the add-product form.
- `fanout.dfy` (`FanOut`): the rows each `add_product` loop inserts, as functions of the inputs,
  and the selection lemmas that state them on the submitted lists.
- `catalog.dfy` (`Catalog`): the tables as a value (`Tables`) and their invariant (`WellFormed`).
  It also holds the read queries (`ViewProduct`, `ProductsInCategory`) and each write route as a
  function from old tables to new ones, with the lemmas connecting writes and reads.
- `store.dfy` (`Store`): `Database`, a class with one `seq` field per table. Its methods perform
  the inserts one row at a time in loops. Each method is proved against the functions above.
- `app.dfy` (`App`): `Session`, the login decision, and the route methods and guarded read routes.

Two foreign calls are parameters: `check_password_hash` is `checkPassword` and `secure_filename`
is `sanitize`. Nothing is claimed about what either returns. `lastrowid` is the `Database`
counter `nextProductId`.

## Model

| member | source | states |
|---|---|---|
| `Seqs.Zip` | app.py:228 | the pairs are exactly (names[i], values[i]) for every i below the shorter list's length |
| `Seqs.Zip4` | app.py:242 | the entries are the i-th elements of all four lists, for every i below the shortest list's length |
| `Seqs.Where` | app.py:283 | a `WHERE` filter keeps exactly the rows satisfying the condition, each as many times as the table holds it, drops the rest and never grows the table |
| `Seqs.WhereFollowsKept` | app.py:283 | the rows a `WHERE` filter returns are the rows at the accepted positions, in table order |
| `Seqs.First` | app.py:132-133 | `fetchone` gives a matching row of the table, and gives none exactly when no row matches |
| `Seqs.KeptIndices` | app.py:228-229 | the loop iterations whose `if` is taken: increasing positions, each kept, and every kept position present |
| `FanOut.SpecKept` | app.py:229 | a specification pair is inserted when its name and its value are both non-empty |
| `FanOut.PackagingKept` | app.py:243 | a packaging entry is inserted when its type and its weight are both non-empty, whatever the container values |
| `FanOut.HasFilename` | app.py:254 | an upload slot is used when its filename is non-empty |
| `FanOut.SpecRows` | app.py:228-234 | every inserted specification row carries the product id and a non-empty name and value, and there are at most as many rows as pairs |
| `FanOut.PackagingRows` | app.py:242-248 | every inserted packaging row carries the product id and a non-empty type and weight, and there are at most as many rows as entries |
| `FanOut.ImageRows` | app.py:253-262 | every inserted image row carries the product id, and there are at most as many rows as uploads |
| `FanOut.SpecRowsFollowKept` | app.py:228-234 | the k-th specification row is built from the k-th pair the `if` keeps |
| `FanOut.PackagingRowsFollowKept` | app.py:242-248 | the k-th packaging row is built from the k-th entry the `if` keeps, container values included |
| `FanOut.ImageRowsFollowKept` | app.py:253-262 | the k-th image row holds `sanitize` of the filename of the k-th upload with a filename |
| `FanOut.SpecificationSelection` | app.py:225-234 | the rows are (names[i], values[i]) for exactly those i below the shorter list's length with both non-empty, in input order |
| `FanOut.PackagingSelection` | app.py:237-248 | the rows are the i-th entries for exactly those i below the shortest length with type and weight non-empty, in order, with both container values copied as given, even when empty |
| `FanOut.ImageSelection` | app.py:251-262 | there is exactly one row per upload with a non-empty filename, none for empty slots, in upload order, and each stores `sanitize` of that filename |
| `FanOut.SpecificationExample` | app.py:228-234 | names ["Color", ""] with values ["Red", "Blue"] yield only the row ("Color", "Red") |
| `Catalog.ProductsInCategory` | app.py:45-51 | the listed products are exactly the table's products in that category, each as many times as the table holds it |
| `Catalog.ViewProduct` | app.py:54-94 | the page holds the product with that id (absent exactly when none has it) and exactly the specification, packaging and image rows naming that id, each as many times as its table holds it |
| `Catalog.AddProductTables` | app.py:216-262 | existing rows stay in place and categories, inquiries and admins are unchanged. One product row is appended under the next id, and every appended child row names that id and has its required fields non-empty |
| `Catalog.DeleteProductTables` | app.py:283 | only the products table changes. It keeps exactly the rows whose id differs, each as often as before |
| `Catalog.InquiryTables` | app.py:106-113 | only the inquiries table changes. It gains exactly one row, the submitted one, after all the old rows |
| `Catalog.NextIdIsFresh` | app.py:216-222 | before the insert, the id `lastrowid` will report shows no product and no child rows |
| `Catalog.AddedProductView` | app.py:216-262 | after `add_product`, the new id shows exactly the submitted product and the selected child rows. The products table grew by one row. Categories, inquiries and admins are unchanged |
| `Catalog.AddLeavesOtherProducts` | app.py:216-262 | `add_product` changes nothing that any other product id shows |
| `Catalog.AddKeepsWellFormed` | app.py:216-262 | `add_product` keeps product ids increasing, and every child row names an id already allocated |
| `Catalog.WhereKeepsIdsIncreasing` | app.py:283 | deleting rows keeps the products ordered by id |
| `Catalog.DeleteCount` | app.py:283 | in an id-sorted table, deleting by id removes one row when the id is present and none otherwise |
| `Catalog.DeletedProductView` | app.py:283 | after deletion the id shows no product. Its child rows are still there and every other table is unchanged |
| `Catalog.DeleteRemovesOne` | app.py:283 | `delete_product` removes exactly one product row when the id exists and none when it does not |
| `Catalog.DeleteLeavesOtherProducts` | app.py:283 | `delete_product` changes nothing that any other product id shows |
| `Catalog.DeleteKeepsWellFormed` | app.py:283 | `delete_product` keeps the tables well formed |
| `Catalog.InquiryLeavesCatalog` | app.py:106-113 | the new last inquiry row is the submitted one. Every product view and the invariant are unaffected |
| `Store.Database.InsertProduct` | app.py:216-222 | appends exactly one product row, under the id `lastrowid` reports, and advances the counter |
| `Store.Database.InsertSpecifications` | app.py:225-234 | the loop appends exactly `SpecRows` of the zipped lists, and only to the specifications table |
| `Store.Database.InsertPackaging` | app.py:237-248 | the loop appends exactly `PackagingRows` of the zipped lists, and only to the packaging table |
| `Store.Database.InsertImages` | app.py:251-262 | the loop appends exactly `ImageRows` of the uploads, and only to the images table |
| `Store.Database.InsertInquiry` | app.py:106-113 | appends exactly one inquiry row |
| `Store.Database.DeleteProduct` | app.py:283 | the products table becomes the rows whose id differs. The invariant is kept |
| `App.LoginAccepted` | app.py:131-136 | an accepted login has an admin row with that username whose hash checks against the password. An unknown username is always refused |
| `App.LoginAcceptedIff` | app.py:131-140 | with unique usernames, login is accepted iff some admin has that username and the password checks against its hash |
| `App.AdminLogin` | app.py:125-140 | on accepted credentials the flag is set and the route redirects to the dashboard. Otherwise the flag is unchanged and the answer is "Invalid Credentials" |
| `App.AdminLogout` | app.py:145-148 | the flag is unset afterwards from either state, so logout is idempotent. The route redirects home |
| `App.AdminDashboard` | app.py:155-178 | without the flag, a redirect to login. With it, the category, product and inquiry counts |
| `App.ViewInquiries` | app.py:181-191 | without the flag, a redirect to login. With it, every inquiry row |
| `App.AddProductForm` | app.py:198-205 | without the flag, a redirect to login. With it, the form listing the categories |
| `App.SubmitInquiry` | app.py:97-116 | appends exactly one inquiry row with the path's product id and the five form fields. No other table changes. The route redirects home |
| `App.AddProduct` | app.py:198-267 | without the flag, a redirect to login and no table changes. With it, the tables become `AddProductTables` of the old ones and the route redirects to the dashboard |
| `App.DeleteProduct` | app.py:277-287 | without the flag, a redirect to login and no table changes. With it, only the products table changes, to `DeleteProductTables` |

## Left out

- Flask routing, template rendering and HTTP redirects. Responses are reduced to a `Response` value.
- The database connection. app.py as written never binds `mysql` and never defines `init_db`
  (neither is imported or assigned in app.py:1-10). So every route's first
  `mysql.connection.cursor()` (for instance app.py:106, 131 and 203) raises `NameError`, and Flask
  answers 500. The start-up block (app.py:292-296) only prints the `init_db` error. The model
  assumes the Flask-MySQLdb `mysql` object the routes expect, with a working connection.
- The GET forms of `inquiry` and `admin_login`, `about`, and `home` (app.py:18-28). They render
  templates, and `home` only lists the categories table.
- `contact` (app.py:30-43), which only prints, and the `init_db` start-up (app.py:292-296). The
  `Database` constructor stands for a database seeded out of band with categories and admins.
- A missing form field raises `KeyError`, which Flask turns into a 400 response. Every form field
  is assumed present.
- `commit`, transactions and rollback. Each route's writes are modelled as taking effect
  together. Partial failure in the middle of `add_product` is not modelled.
- The form's `category_id` is a string that MySQL converts to the integer column. It is modelled
  as the integer stored, and no category check is made, as in the source.
- `lastrowid` is the `Database` counter. This assumes that AUTO_INCREMENT hands out ids above
  every existing id, in increasing order. It also assumes the counter never reuses an id, not even
  the id of a deleted product. `delete_product` leaves the child rows in place
  (`Catalog.DeletedProductView`), so a reused id would show the deleted product's specification,
  packaging and image rows under the new product. InnoDB before MySQL 8.0 can reuse ids this way:
  after a restart it resets AUTO_INCREMENT to the largest id plus one. `Catalog.NextIdIsFresh`
  rests on this assumption.
- `check_password_hash` and `secure_filename` are foreign library calls. They are the parameters
  `checkPassword` and `sanitize`, with no claim about their output. In particular, the model does
  not claim that a sanitized name contains no path separator.
- `image.save` and overwriting files in the upload folder are filesystem I/O.
- FanOut.ImageSelection: when `secure_filename` returns `""`, for instance for a name made only of
  non-ASCII characters or `..`, the path is the upload folder itself. `image.save` then raises,
  the request fails and nothing is committed. The model has no failure path here and still
  records `Image(pid, sanitize(name))`.
- Werkzeug's `FileStorage` is falsy exactly when its filename is empty, so the guard
  `image and image.filename != ''` is modelled as "the filename is non-empty". A missing
  filename counts as empty.
- Foreign-key cascades. Any `ON DELETE CASCADE` would be declared in the database schema, and the
  schema is not part of this model. The model follows the route, which issues only
  `DELETE FROM products`. `Catalog.DeletedProductView` states that the child rows remain.
- The child rows' own ids and `created_at` columns, which the application never reads back.
- App.ViewInquiries: `SELECT *` passes each inquiry's `id` and `created_at` to the template
  (app.py:187-191). The model's `Inquiry` has neither column, so `InquiriesPage` drops both.
- `product_detail` selects only some columns of each child table. The model returns whole rows and
  takes the table order as the result order of a `SELECT` without `ORDER BY`.
- App.ViewInquiries: the `ORDER BY created_at DESC` order is not modelled. The contract says only
  that the page holds the same rows as the table, as a multiset.
- App.LoginAcceptedIff: usernames are compared exactly. The MySQL column's collation may compare
  them case-insensitively and ignore trailing spaces, and it is not modelled.
- App.AdminLogin: the same exact comparison of usernames, so a login the collation would match
  under a different case is refused in the model.
- Concurrency between requests, and sessions expiring.
