# produmax order, product and role-gate core, in Dafny

This project models three parts of the produmax backend, with the document
store replaced by in-memory tables:

- the order handlers (`src/controllers/order.controller.ts`);
- the role gate in front of the admin routes (`src/middlewares/verifyrol.ts`);
- the product handlers with their image-file handling
  (`src/controllers/product.controller.ts`).

An order is a header plus line items that join it to products. Creating an
order resolves the client by civil ID, saves the header and writes one line
item per request entry. Updating overwrites the header and upserts line items.
Deleting removes the order's line items first and then the header. A product
carries an image file that the upload middleware has already written to disk.
Every refused request deletes that file again, and an update or a delete
removes the product's previous image.

Files:

- `common.dfy`: ids, JavaScript numbers as `real`, `Option`, the
  store-failure selector `Fault`, the status codes, and `Least`. `Least` picks
  the least id of a set, which is how the model reads a `findOne` that returns
  the first match in insertion order.
- `records.dfy`: the documents (users, roles, orders, line items, units,
  categories, products) and the by-name and by-civil-ID lookups.
- `line_items.dfy`: the line-item table as a sequence, with what creation,
  update and bulk deletion do to it, and the properties of the update step.
- `orders.dfy`: `OrderController`, a class holding the user, order and
  line-item tables. Its methods change the tables in place, and its loops
  write one line item at a time.
- `role_gate.dfy`: the gate as a function of the user and role tables, as
  written and as intended.
- `paths.dfy`: Node's POSIX `path.extname`, ASCII `toLowerCase`, the
  image-extension test and `path.resolve`.
- `products.dfy`: `ProductController`, a class holding the product, unit and
  category tables and the set of files on disk.

The store's behaviour is reduced to a few choices:

- A store call that throws is selected by a `Fault` parameter. Each handler's
  comment says which call `FindFails` and `WriteFails` stand for.
- The gate has its own `Lookup` parameter saying which of its two lookups
  throws.
- New documents get ids from an increasing counter, so the least matching id
  is the oldest match.

The code and its documentation disagree in one place. The comment at
`src/controllers/order.controller.ts:96` says an update deletes line items
that differ from the request and adds the new ones. The code at lines
121-124 never deletes anything. It upserts on the entry's own `orderId` and
writes no quantity. The model follows the code: `LineItems.UpsertAll` and
the lemmas about it state what the update really does.

## Model

| member | source | states |
|---|---|---|
| Records.FindUserByCi | src/controllers/order.controller.ts:67-68 | `User.findOne({ci})` finds nothing exactly when no user has that civil ID; otherwise it finds a user with that civil ID, the first one inserted |
| Records.FindStaffRole | src/middlewares/verifyrol.ts:20-21 | the role lookup matches on the name AND `type_user = 1`; a same-named role of another type is not found; the first match is returned |
| Common.Least | src/controllers/order.controller.ts:67 | a `findOne` finds nothing exactly when no document matches; otherwise it finds a matching document, the first one inserted |
| Records.NamedRef | src/controllers/product.controller.ts:102-111 | the unit or category reference is the empty reference exactly when no document of that table has the name, else the id of the first document with that name |
| LineItems.NewItems | src/controllers/order.controller.ts:80-86 | creation writes exactly one line item per entry, in order, each pointing at the new order and copying the entry's product and quantity |
| LineItems.Upsert | src/controllers/order.controller.ts:122-123 | one entry's upsert, filtered on the entry's own `orderId`: afterwards its pair is present, at most one item is added, that item has no quantity, and the old items are kept unchanged |
| LineItems.UpsertAll | src/controllers/order.controller.ts:121-124 | the update step never removes or rewrites a line item: the old table is a prefix of the new one, so matched items keep their quantity |
| LineItems.UpsertAllCovers | src/controllers/order.controller.ts:121-124 | after the update step, every entry's (orderId, productId) pair is in the table |
| LineItems.UpsertAllInsertsOnlyMissing | src/controllers/order.controller.ts:121-124 | every appended item has no quantity, carries a requested pair that was missing before, and no pair is appended twice |
| LineItems.UpsertAllCovered | src/controllers/order.controller.ts:121-124 | when every requested pair is already present, the update step changes nothing |
| LineItems.UpsertAllIdempotent | src/controllers/order.controller.ts:121-124 | applying the update step twice with the same entries is the same as applying it once |
| LineItems.ReconcileScenario | src/controllers/order.controller.ts:121-124 | an order with products 1 (quantity 2) and 2 (quantity 3), updated with products 1 (quantity 5) and 3: product 1 keeps quantity 2, product 2 stays, product 3 is added without a quantity |
| LineItems.ItemsWithout | src/controllers/order.controller.ts:145 | `deleteMany({orderId})` leaves no item of that order and keeps every other item with its multiplicity |
| Orders.OrderController.GetOrders | src/controllers/order.controller.ts:25-32 | answers 200 with every order, or 500 when the query throws |
| Orders.OrderController.GetOrder | src/controllers/order.controller.ts:43-53 | answers 404 when no order has the id, else 200 with that order; nothing changes |
| Orders.OrderController.CreateOrder | src/controllers/order.controller.ts:64-92 | an unknown client gives 404, and a failed lookup or save gives 500, each with no order and no line item added; success gives 201 and the new order's fresh id, under which the header with the request's fields and the client's id is stored, with exactly the entries' line items appended after the old ones |
| Orders.OrderController.UpdateOrder | src/controllers/order.controller.ts:104-131 | an unknown client gives 404 even when the order exists; an unknown order gives 404; both leave the store unchanged; otherwise the line items become `UpsertAll` of the old ones, and only order `id` gets the five request fields (200), unless the final save throws (500, line items already written) |
| Orders.OrderController.DeleteOrder | src/controllers/order.controller.ts:142-156 | the order's line items are deleted before the header is looked up, also when it is missing (404); success gives 201 with neither the order nor any of its line items left; a failed `deleteMany` changes nothing |
| RoleGate.StatusOf | src/middlewares/verifyrol.ts:18-31 | an admitted request gets no answer from the gate; both not-found outcomes answer 404, a rejection 401 |
| RoleGate.VerifyRol | src/middlewares/verifyrol.ts:12-33 | a missing user gives 404 before the role is looked up; a missing staff role gives 404; a throwing lookup gives 401; with both found, the request passes exactly when the user's role id differs from the role's id |
| RoleGate.VerifyRolIntended | src/middlewares/verifyrol.ts:24-28 | the intended gate passes exactly the users whose role is the first staff role of the required name, with the same not-found answers as the gate as written |
| RoleGate.RoleHolderRejected | src/middlewares/verifyrol.ts:24-28 | on a found user and role, the gate as written admits exactly when the intended gate rejects, and it rejects every holder of the required role |
| RoleGate.AdminRejectedExample | src/middlewares/verifyrol.ts:24-28 | a user holding the only staff role "admin" is turned away by the gate as written and admitted by the intended one |
| Paths.TrimTrailingSlashes | src/controllers/product.controller.ts:99 | the path without its trailing slashes: a prefix of it, not ending in `/`, followed only by slashes |
| Paths.Basename | src/controllers/product.controller.ts:99 | the last component: the longest suffix without a `/` |
| Paths.LastDot | src/controllers/product.controller.ts:99 | the index of the last `.`, if any: a `.` with no `.` after it, and none exactly when the name has no `.` |
| Paths.Extname | src/controllers/product.controller.ts:99 | `extname` is empty or starts with its only `.` and holds no `/`; a non-empty extension is shorter than the path |
| Paths.Lower | src/controllers/product.controller.ts:99 | `toLowerCase` keeps the length and maps every ASCII capital to the letter 32 code points above it, leaving everything else |
| Paths.IsImageExtension | src/controllers/product.controller.ts:101 | the three accepted extensions each have an extension's shape: a leading `.` and no other `.` |
| Paths.AcceptedImage | src/controllers/product.controller.ts:99-101 | the upload test on the lower-cased extension of the client's name; an accepted name has an extension of four or five characters and something before it |
| Paths.ExtensionIsSuffix | src/controllers/product.controller.ts:99-101 | for a plain file name, the lowered extension is `e` exactly when the name ends with `e` in any letter case after at least one character |
| Paths.AcceptedImageIffSuffix | src/controllers/product.controller.ts:99-101 | an upload is accepted exactly when its name ends, in any letter case, with ".png", ".jpg" or ".jpeg" after at least one character |
| Paths.ExtnameLeadingDot | src/controllers/product.controller.ts:99-101 | a name whose only `.` leads it, such as ".png", has no extension and is refused |
| Paths.ExtnameDotDot | src/controllers/product.controller.ts:99 | the component ".." has no extension |
| Paths.ExtnameIgnoresTrailingSlash | src/controllers/product.controller.ts:99 | a trailing slash does not change the extension |
| Paths.Resolve | src/controllers/product.controller.ts:203-204 | `resolve` never returns an empty path, so the "image not found" answers cannot happen; an absolute path resolves to itself |
| Paths.ResolveAbsolute | src/controllers/product.controller.ts:156 | against an absolute working directory, a resolved path is absolute and resolving it again gives it back |
| Products.ProductController.Unlink | src/controllers/product.controller.ts:156 | `unlink` removes the file the path resolves to and fails exactly when there was no such file |
| Products.ProductController.GetProducts | src/controllers/product.controller.ts:33-42 | answers 200 with every product, or 500 when the query throws |
| Products.ProductController.GetProduct | src/controllers/product.controller.ts:54-75 | answers 404 when no product has the id, else 200 with that product; nothing changes |
| Products.ProductController.CreateProduct | src/controllers/product.controller.ts:89-133 | a refused extension deletes the upload and answers 400; any failure deletes the upload and answers 500; neither stores a product; success stores under a fresh id the request's fields, the upload's path and the looked-up references, keeping the upload, and answers 201 |
| Products.ProductController.SaveProduct | src/controllers/product.controller.ts:100-132 | after an accepted extension: a failed lookup or save deletes the upload and answers 500 with the table unchanged; otherwise the new product is stored (201) |
| Products.ProductController.DeleteProduct | src/controllers/product.controller.ts:144-166 | an unknown id gives 404 with nothing changed; otherwise the image file is deleted and then the product (200); a missing image makes the delete fail with 500 and keeps the product |
| Products.ProductController.UpdateProduct | src/controllers/product.controller.ts:177-238 | no upload gives 400 before anything else; a refused extension deletes the upload and answers 400; otherwise the outcome is the one `ReplaceProduct` states |
| Products.ProductController.ReplaceProduct | src/controllers/product.controller.ts:193-237 | an unknown id deletes the upload and answers 404; a failed lookup deletes the upload and answers 500; otherwise the previous image is deleted and the product gets the request's fields, the upload's path, the looked-up references and its old bundle price (200); a missing previous image or a failed save answers 500, with the upload deleted |

## Left out

- The un-awaited `forEach(async ...)` loops of order creation and update
  (src/controllers/order.controller.ts:80, 121) run here as sequential loops.
  The model orders the line-item writes before the response and does not
  model their interleavings.
- A single line-item write that throws inside those loops is not modelled.
  Its rejection is unhandled and never reaches the handler's `catch`.
- A request whose `details` is missing throws at `forEach`. In
  `createOrder` this happens after the header was saved (line 78), so the
  program answers 500 and keeps a new order with no line items; in
  `updateOrder` it answers 500 with nothing saved. The model's `details` is
  always a sequence, so neither case is modelled.
- Every update entry is taken to carry an `orderId`, and `Detail` always has
  one. An entry of the shape `createOrder` reads, `{productId, quantity}`,
  would make the filter and `$set` at src/controllers/order.controller.ts:122-123
  test a missing field, and the program would upsert an item that belongs
  to no order. That case is not modelled.
- Schema validation, unique indexes and ObjectId cast errors are not
  modelled. This includes the empty-string reference a product gets when a
  lookup finds nothing. Every store failure is the one generic `Fault`.
- RoleGate.VerifyRol: compares id values. In JavaScript, `!==` between two
  ObjectId objects compares identities. So whenever both lookups complete
  and both the user and the staff role are found, the running gate admits
  the user, whatever role the user holds.
- The token check (src/middlewares/verifytoken.ts) is not part of this
  model. The gate receives the payload's user id as a parameter.
- `createProduct` without an uploaded file throws before its `try` (an
  unhandled rejection). The model's `CreateProduct` always gets an upload.
- A `catch` block's own `unlink` is modelled as removing the temporary file
  if it is present. It cannot fail there, because every path reaching it
  still has the upload on disk. The one exception is an upload whose path is
  the previous image's, and that failure is not modelled.
- `path.resolve` is modelled without normalisation of `.`, `..` and repeated
  slashes. A relative path is joined to the working directory, which is a
  parameter of the controller.
- `toLowerCase` is modelled on ASCII letters only. Other Unicode case
  mappings are not.
- Response message strings and JSON envelopes are left out. Each handler
  returns the status code and the entity it answers with. The exceptions are
  `CreateOrder` and `CreateProduct`: they return the new document's id, and
  the document the program answers with is the one their contract says is
  stored under that id.
- The route tables, the database connection, the server set-up and the
  upload middleware's storage, file names and size limit are not part of
  this model.

## Findings

| source | as written | input that shows it | evidently intended | confidence | as-written member | corrected member |
|---|---|---|---|---|---|---|
| src/middlewares/verifyrol.ts:24-28 | calls `next()` when the user's role id differs from the required role's id and answers 401 when they are equal | user 0 with role id 7, where role 7 is the only staff role "admin", on a route guarded by `verifyRol("admin")`: comparing the id values, as the code evidently means to, the gate answers 401 (with ObjectId identity `!==` the running gate admits this user, and every other found user) | pass exactly the holders of the required role | not executed | RoleGate.RoleHolderRejected | RoleGate.VerifyRolIntended |
