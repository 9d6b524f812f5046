# Inventory service: a Dafny model

This project models the logic of a small inventory service. The backend is an
Express application over a Sequelize database: products with a name, type,
SKU, optional image URL and description, a quantity and a price, and users
who register and log in to receive a signed token. The front end is a React
application with a products page, a dashboard and an authentication context.

The model follows the layers of the backend, one module per source file:

- the entities `Product` and `User`;
- the ORM's product table constraints;
- the two repositories, written as store classes over an in-memory table;
- the five use cases;
- the error handler and the token guard;
- the two controllers.

On the front end it models:

- the products page's filters, type list, stock label and quantity-edit guards;
- the dashboard's figures;
- the authentication reducer, with the actions the login and register flows dispatch.

`Common` holds the shared values: `Option`, `Result`, the thrown `Error`,
JavaScript truthiness, `includes`, `join` and `toLowerCase`.

Conventions of the model:

- **Prices** are integer cents, so DECIMAL(10,2) holds 0 to 10^10 - 1.
- **Timestamps** come from an abstract clock that every write of a store advances. Rows inserted later are therefore created later, and "newest first" is the reverse of insertion order.
- **Hashing, password comparison, token signing and token verification** are parameters: an uninterpreted hash of a password and a cost; an uninterpreted match of a password against a hash; a signing function of the claims and the expiry; and a verification oracle that yields a user id or a named error.
- **Parsed integers.** The request's already-parsed integers are the inputs. A value that is not a number (NaN) appears only on the products page, as `None`.
- **`development`** is whether NODE_ENV is "development".
- **State-changing operations** are methods of the store classes, or methods that take a store. Each is specified by a pure `Outcome` function of the old table, and the lemmas about the operation are stated on that function.

## Model

| member | source | states |
|---|---|---|
| ProductEntity.QuantityUpdated | Backend/src/domain/entities/Product.js:30-36 | `updateQuantity(n)` fails exactly for a negative n; otherwise the quantity is n and updatedAt the current time |
| ProductEntity.QuantityUpdatedKeepsIdentity | Backend/src/domain/entities/Product.js:30-36 | a negative quantity fails with "Quantity cannot be negative", and exactly then; otherwise only quantity and updatedAt change, every other field is kept |
| ProductEntity.QuantityUpdatedIdempotent | Backend/src/domain/entities/Product.js:34-35 | applying the same non-negative quantity twice leaves the quantity of the first application, and at the same time the same entity |
| ProductEntity.Product.constructor | Backend/src/domain/entities/Product.js:2-13 | the ten arguments are stored unchanged, so `toJSON` gives them back |
| ProductEntity.Product.Create | Backend/src/domain/entities/Product.js:15-28 | a fresh product with no id, the given seven fields and both timestamps set to the current time |
| ProductEntity.Product.FromRecord | Backend/src/domain/entities/Product.js:38-51 | rebuilding an entity from its `toJSON` value gives an entity whose `toJSON` is that value |
| ProductEntity.Product.UpdateQuantity | Backend/src/domain/entities/Product.js:30-36 | the in-place update does what QuantityUpdated describes; when it throws, no field changes |
| ProductEntity.UpdateQuantityTwice | Backend/src/domain/entities/Product.js:30-36 | two updates with the same quantity leave that quantity and the later time, and every other field as before |
| ProductEntity.Product.ToJson | Backend/src/domain/entities/Product.js:38-51 | each of the ten fields of the result is the entity's current value of that field |
| UserEntity.Create | Backend/src/domain/entities/User.js:10-12 | a user with no id, the given username and hash, both timestamps the current time |
| UserEntity.ToJson | Backend/src/domain/entities/User.js:14-21 | the view carries id, username and both timestamps of the user, and has no hash field |
| UserEntity.ViewIgnoresHash | Backend/src/domain/entities/User.js:14-21 | two users that differ only in their hash have the same view |
| UserEntity.ViewDeterminesUserUpToHash | Backend/src/domain/entities/User.js:14-21 | equal views mean equal users apart from the hash |
| ProductModel.Violations | Backend/src/infrastructure/database/models/Product.js:10-54 | a row has no validator message exactly when it meets every declared bound (name 1..100, type 1..50, sku 3..50, quantity 0..INTEGER max, price 0..DECIMAL(10,2)) |
| ProductModel.OptionalFieldsUnconstrained | Backend/src/infrastructure/database/models/Product.js:32-39 | whether a row is valid does not depend on imageUrl or description |
| ProductRepository.TotalPages | Backend/src/infrastructure/repositories/SequelizeProductRepository.js:79 | the page count is never more than the number of rows |
| ProductRepository.TotalPagesIsCeiling | Backend/src/infrastructure/repositories/SequelizeProductRepository.js:79 | the reported page count is the least number of `limit`-row pages that hold all rows, and 0 exactly for an empty table |
| ProductRepository.PageOfPageOffset | Backend/src/infrastructure/repositories/SequelizeProductRepository.js:77 | the offset (p-1)*limit is reported back as page p |
| ProductRepository.Rejection | Backend/src/infrastructure/repositories/SequelizeProductRepository.js:86-96 | the store refuses a write exactly when the row breaks a column constraint or another row holds its sku |
| ProductRepository.WithoutKeepsOrder | Backend/src/infrastructure/repositories/SequelizeProductRepository.js:175-183 | destroying a row keeps the other rows in creation order, one fewer exactly when the row was there |
| ProductRepository.ProductStore.constructor | Backend/src/infrastructure/database/models/Product.js:4-69 | an empty table, which satisfies the table invariant |
| ProductRepository.ProductStore.FindById | Backend/src/infrastructure/repositories/SequelizeProductRepository.js:5-21 | null exactly when no row has the id, otherwise that row |
| ProductRepository.ProductStore.SkuSearch | Backend/src/infrastructure/repositories/SequelizeProductRepository.js:29-30 | the first row along the given ids with the sku, or null exactly when none of them has it |
| ProductRepository.ProductStore.FindBySku | Backend/src/infrastructure/repositories/SequelizeProductRepository.js:27-43 | null exactly when no row has the sku, otherwise the stored row with that sku, under its own id |
| ProductRepository.ProductStore.RowsReversed | Backend/src/infrastructure/repositories/SequelizeProductRepository.js:56 | the rows of the given ids, last id first, one per id |
| ProductRepository.ProductStore.NewestFirst | Backend/src/infrastructure/repositories/SequelizeProductRepository.js:56 | every row, latest insert first |
| ProductRepository.ProductStore.NewestFirstSortedPermutation | Backend/src/infrastructure/repositories/SequelizeProductRepository.js:56 | newest first lists each row, only rows, in strictly decreasing createdAt |
| ProductRepository.ProductStore.FindAll | Backend/src/infrastructure/repositories/SequelizeProductRepository.js:49-80 | defaults limit 10 and offset 0; the page holds min(limit, rows after offset) rows, the newest-first rows from the offset on; total is the row count; page and totalPages follow the page arithmetic |
| ProductRepository.ProductStore.Create | Backend/src/infrastructure/repositories/SequelizeProductRepository.js:86-113 | a valid row is inserted under a fresh id with the entity's fields and the store's time, and nothing else changes; a rejected one changes nothing and throws with the "Error creating product: " prefix |
| ProductRepository.ProductStore.Update | Backend/src/infrastructure/repositories/SequelizeProductRepository.js:115-147 | a missing id throws "Error updating product: Product not found" and changes nothing; otherwise only that row's seven writable fields and updatedAt change, or a rejection throws with the prefix and changes nothing |
| ProductRepository.ProductStore.UpdateQuantity | Backend/src/infrastructure/repositories/SequelizeProductRepository.js:149-173 | a missing id throws "Error updating product quantity: Product not found"; the quantity the row already holds writes nothing and returns the row as stored; otherwise only that row's quantity and updatedAt change, or an out-of-range quantity throws with the prefix and changes nothing |
| ProductRepository.ProductStore.Delete | Backend/src/infrastructure/repositories/SequelizeProductRepository.js:175-187 | removes exactly that row and answers true; a missing id throws "Error deleting product: Product not found" and changes nothing |
| ProductRepository.TwentyFiveRows | Backend/src/infrastructure/repositories/SequelizeProductRepository.js:49-80 | with 25 rows and limit 10 there are 3 pages, the first full and the third holding 5 |
| ProductRepository.PageNonEmptyIffInRange | Backend/src/infrastructure/repositories/SequelizeProductRepository.js:53-79 | the page at offset (p-1)*limit is reported as p, is non-empty exactly when p is at most totalPages, and is full when p is below it |
| UserRepository.UserStore.constructor | Backend/src/infrastructure/repositories/SequelizeUserRepository.js:4 | an empty user table, which satisfies the table invariant |
| UserRepository.UserStore.FindById | Backend/src/infrastructure/repositories/SequelizeUserRepository.js:22-37 | null exactly when no row has the id, otherwise that row |
| UserRepository.UserStore.UsernameSearch | Backend/src/infrastructure/repositories/SequelizeUserRepository.js:7-8 | the first row along the given ids with the username, or null exactly when none of them has it |
| UserRepository.UserStore.FindByUsername | Backend/src/infrastructure/repositories/SequelizeUserRepository.js:5-20 | null exactly when no row has the username, otherwise the stored row, hash included, under its own id |
| UserRepository.UserStore.Create | Backend/src/infrastructure/repositories/SequelizeUserRepository.js:39-56 | inserts one row with the username, the hash, a fresh id and the store's time; a username already stored throws "Error creating user: Validation error" and changes nothing |
| UserRepository.UserStore.Update | Backend/src/infrastructure/repositories/SequelizeUserRepository.js:58-80 | a missing id throws "Error updating user: User not found" and changes nothing; the username and hash the row already holds write nothing and return the row as stored; otherwise only that row's username, hash and updatedAt change, or a username held by another row throws "Error updating user: Validation error" and changes nothing |
| UserRepository.UserStore.Delete | Backend/src/infrastructure/repositories/SequelizeUserRepository.js:82-94 | removes exactly that row and answers true; a missing id throws "Error deleting user: User not found" |
| UserRepository.FindByUsernameFindsRow | Backend/src/infrastructure/repositories/SequelizeUserRepository.js:5-16 | looking up a stored row's username finds that very row |
| CreateProduct.InputError | Backend/src/application/usecases/products/CreateProductUseCase.js:12-27 | the message of the first failing check, in order required fields, quantity, price, sku length; none exactly when all pass |
| CreateProduct.Outcome | Backend/src/application/usecases/products/CreateProductUseCase.js:12-39 | every failure carries one of the five check messages or the repository's "Error creating product: " prefix; a success is a row under the next id that fits the columns and whose sku no other row holds |
| CreateProduct.Execute | Backend/src/application/usecases/products/CreateProductUseCase.js:8-40 | the answer is the Outcome of the old table; a failure leaves the store unchanged; a success inserts exactly one row under the next id, appends it to the insertion order, advances the id counter and ticks the clock once |
| CreateProduct.ZeroRefusedAsMissing | Backend/src/application/usecases/products/CreateProductUseCase.js:12-14 | quantity 0 or price 0 is refused with the required-fields message |
| CreateProduct.ZeroQuantityStorableButRefused | Backend/src/application/usecases/products/CreateProductUseCase.js:12-14 | a concrete quantity-0 product that the table would store is refused by the use case |
| CreateProduct.FailuresInOrder | Backend/src/application/usecases/products/CreateProductUseCase.js:12-33 | each refusal carries the message of the first failing check, sku uniqueness last |
| CreateProduct.CreatedIffAccepted | Backend/src/application/usecases/products/CreateProductUseCase.js:29-39 | a product is created exactly when the checks pass, the sku is new and the row fits the columns; the new row has the given fields and the next id, and the table stays valid |
| UpdateQuantity.Outcome | Backend/src/application/usecases/products/UpdateProductQuantityUseCase.js:8-26 | every failure carries one of the three check messages or the repository's "Error updating product: " prefix; a success is the stored row under that id with the requested quantity, fitting the columns |
| UpdateQuantity.Execute | Backend/src/application/usecases/products/UpdateProductQuantityUseCase.js:6-27 | the answer is the Outcome of the old table; a failure leaves the store unchanged; a success replaces only that row, keeps the insertion order and the id counter, and ticks the clock once |
| UpdateQuantity.FailuresInOrder | Backend/src/application/usecases/products/UpdateProductQuantityUseCase.js:8-20 | id 0, then a negative quantity, then an unknown id, each with its exact message |
| UpdateQuantity.OnlyQuantityChanges | Backend/src/application/usecases/products/UpdateProductQuantityUseCase.js:17-26 | success exactly for a stored id and a storable quantity; then only quantity and updatedAt of that row change, and the table stays valid |
| UpdateQuantity.RepeatKeepsQuantity | Backend/src/application/usecases/products/UpdateProductQuantityUseCase.js:23-24 | repeating the same update succeeds again and leaves the same row apart from updatedAt |
| GetProducts.Execute | Backend/src/application/usecases/products/GetProductsUseCase.js:6-22 | defaults page 1 and limit 10; page below 1 and limit outside 1..100 fail with their messages; otherwise the store's page at offset (page-1)*limit, which is at least 0 |
| GetProducts.ReturnsRequestedPage | Backend/src/application/usecases/products/GetProductsUseCase.js:18-21 | the listed page reports the requested page and limit and the row count, holds at most limit rows, and is non-empty exactly within the page count |
| GetProducts.ReturnsRowsFromOffset | Backend/src/application/usecases/products/GetProductsUseCase.js:18-19 | the listed rows are the newest-first rows from (page-1)*limit on |
| GetProducts.DefaultsListFirstTen | Backend/src/application/usecases/products/GetProductsUseCase.js:7 | with no options, page 1 with the first min(10, n) rows |
| RegisterUser.InputError | Backend/src/application/usecases/auth/RegisterUserUseCase.js:11-21 | the first failing check among required fields, username length 3, password length 6; none exactly when all pass |
| RegisterUser.Outcome | Backend/src/application/usecases/auth/RegisterUserUseCase.js:11-37 | every failure carries one of the four check messages; a success is the view of a user under the next id with the requested username, which no row held before |
| RegisterUser.Execute | Backend/src/application/usecases/auth/RegisterUserUseCase.js:9-38 | the answer is the Outcome of the old table; a failure leaves the store unchanged; a success inserts the new row with the hash of the password at cost 10 under the next id, appends it to the insertion order, advances the id counter and ticks the clock once |
| RegisterUser.RegisteredUser | Backend/src/application/usecases/auth/RegisterUserUseCase.js:24-37 | success exactly when the checks pass and the username is new; a taken username fails with "Username already exists"; the answer is the new row's view |
| RegisterUser.SecondRegistrationConflicts | Backend/src/application/usecases/auth/RegisterUserUseCase.js:24-27 | registering the same username again is refused as a duplicate |
| RegisterUser.RegistrationKeepsUsernamesUnique | Backend/src/application/usecases/auth/RegisterUserUseCase.js:24-35 | the insert after the checks keeps usernames unique |
| LoginUser.Expiry | Backend/src/application/usecases/auth/LoginUserUseCase.js:31 | a configured non-empty expiry is used, otherwise "24h" |
| LoginUser.Execute | Backend/src/application/usecases/auth/LoginUserUseCase.js:9-38 | a failure is "Username and password are required" or "Invalid credentials"; a success needs both fields, and its token is signed over the returned user's id and the given username with the configured or default expiry |
| LoginUser.LoginSucceedsIffCredentialsMatch | Backend/src/application/usecases/auth/LoginUserUseCase.js:9-38 | missing fields fail with the required message; success exactly when a row holds the username and the password matches its hash; the token is signed over that row's id and username, the view is that row's; every failure is one of the two messages |
| LoginUser.UnknownUserLooksLikeWrongPassword | Backend/src/application/usecases/auth/LoginUserUseCase.js:16-25 | an unknown username and a wrong password give the same "Invalid credentials" |
| ErrorHandler.Classify | Backend/src/interface/middleware/errorHandler.js:5-36 | the status is 400, 401, 404, 409 or 500, and a 500 always says "Internal server error" |
| ErrorHandler.Handle | Backend/src/interface/middleware/errorHandler.js:1-43 | success is false, the stack is sent only in development, and the status and message are those of the classification |
| ErrorHandler.MatchIndex | Backend/src/interface/middleware/errorHandler.js:20-35 | the first rule the message matches, with no earlier rule matching, or the number of rules |
| ErrorHandler.ClassifyIsByTable | Backend/src/interface/middleware/errorHandler.js:5-36 | the if/else chain equals the table reading: the three ORM names first, then the first matching message rule with the message kept, else 500 |
| ErrorHandler.StatusesAndPrecedence | Backend/src/interface/middleware/errorHandler.js:5-17 | every status is 400, 401, 404, 409 or 500; 500 always says "Internal server error"; the ORM names decide before the message |
| ErrorHandler.MessageRulesDecide | Backend/src/interface/middleware/errorHandler.js:18-36 | for other errors, 500 exactly when the message is empty or matches no rule; otherwise the first matching rule's status with the message kept |
| ErrorHandler.PlainErrorStatus | Backend/src/interface/middleware/errorHandler.js:18-36 | a plain error keeps its message unless its status is 500 |
| ErrorHandler.FirstMatchStatus | Backend/src/interface/middleware/errorHandler.js:20-35 | a message that first matches rule j gets rule j's status, one that matches none gets 500 |
| ErrorHandler.Served | Backend/src/interface/middleware/errorHandler.js:38-42 | a controller's own reply is sent as it is; a forwarded error is sent with the handler's status, message and stack, no data |
| ErrorHandler.ForwardedPlain | Backend/src/interface/middleware/errorHandler.js:18-42 | a forwarded plain error gets the handler's status for its message, and the message unless the status is 500 |
| AuthMiddleware.Split | Backend/src/interface/middleware/authMiddleware.js:9 | at least one piece, none containing a space |
| AuthMiddleware.JoinSplit | Backend/src/interface/middleware/authMiddleware.js:9 | joining the pieces with single spaces gives the header back |
| AuthMiddleware.TokenOf | Backend/src/interface/middleware/authMiddleware.js:8-9 | no header gives no token, and a token never contains a space |
| AuthMiddleware.TokenIsSecondWord | Backend/src/interface/middleware/authMiddleware.js:9 | the token is the word after the first space, whatever the first word is |
| AuthMiddleware.NoSpaceNoToken | Backend/src/interface/middleware/authMiddleware.js:9-16 | a header without a space carries no token |
| AuthMiddleware.Authenticate | Backend/src/interface/middleware/authMiddleware.js:6-48 | every refusal is a 401 with one of the four guard messages; `next()` is called only with a stored user; `next(error)` only with an error that is neither malformed nor expired |
| AuthMiddleware.GuardDecisions | Backend/src/interface/middleware/authMiddleware.js:8-46 | no token gives 401 "Access token required"; every refusal is 401; next() is reached exactly for a verified token of a stored user, with that user; a vanished user, a malformed and an expired token each get their message; other errors go to next(error) |
| AuthMiddleware.MissingTokenRefused | Backend/src/interface/middleware/authMiddleware.js:9-16 | a missing header, a header without a space and one with an empty second piece are refused before verification |
| ProductController.CreateReply | Backend/src/interface/controllers/ProductController.js:24-40 | a created product is a 201 with its row; an error mentioning "already exists" is a 409 with its message; every other error, and only those, is forwarded unchanged |
| ProductController.UpdateQuantityReply | Backend/src/interface/controllers/ProductController.js:48-67 | an updated product is a 200 with its row; exactly "Product not found" is a 404; every other error, and only those, is forwarded unchanged |
| ProductController.CreateProduct | Backend/src/interface/controllers/ProductController.js:12-41 | the response is the create reply to the use case's outcome; a refused request changes nothing; a 201 answer carries the row that was inserted under the next id, appended to the insertion order, with the id counter advanced and the clock ticked once |
| ProductController.UpdateProductQuantity | Backend/src/interface/controllers/ProductController.js:43-68 | the response is the update reply to the use case's outcome; a refused request changes nothing; a 200 answer carries the row now stored under the id, with the insertion order and id counter kept and the clock ticked once |
| ProductController.GetProducts | Backend/src/interface/controllers/ProductController.js:70-87 | absent page and limit become 1 and 10 before the use case runs |
| ProductController.RequiredIsBadRequest | Backend/src/interface/middleware/errorHandler.js:20-22 | the required-fields message is a 400 and is not taken for an "already exists" error |
| ProductController.IdRequiredIsBadRequest | Backend/src/interface/middleware/errorHandler.js:20-22 | the id message is a 400 |
| ProductController.NegativeQuantityIsBadRequest | Backend/src/interface/middleware/errorHandler.js:32-34 | the entity's "cannot be negative" message is a 400 |
| ProductController.SkuExistsIsConflict | Backend/src/interface/controllers/ProductController.js:32-37 | the duplicate-sku message says "already exists" and would be a 409 in the error handler too |
| ProductController.QuantityInvalidIsServerError | Backend/src/interface/middleware/errorHandler.js:18-36 | "Quantity must be a non-negative number" matches no rule: a 500 |
| ProductController.PriceInvalidIsServerError | Backend/src/interface/middleware/errorHandler.js:18-36 | "Price must be a non-negative number" matches no rule: a 500 |
| ProductController.SkuTooShortIsServerError | Backend/src/interface/middleware/errorHandler.js:18-36 | "SKU must be at least 3 characters long" matches no rule: a 500 |
| ProductController.PageInvalidIsServerError | Backend/src/interface/middleware/errorHandler.js:18-36 | the page message matches no rule: a 500 |
| ProductController.LimitInvalidIsServerError | Backend/src/interface/middleware/errorHandler.js:18-36 | the limit message matches no rule: a 500 |
| ProductController.LateUniqueIsServerError | Backend/src/interface/middleware/errorHandler.js:18-36 | a unique-index rejection from the store after the sku check passed is a 500, not a 409 |
| ProductController.CreateMissingIsBadRequest | Backend/src/interface/controllers/ProductController.js:12-41 | missing fields, quantity 0 and price 0 are answered 400 with the required-fields message |
| ProductController.CreateInvalidFieldIsServerError | Backend/src/interface/controllers/ProductController.js:12-41 | a negative quantity, a negative price and a short sku are answered 500 "Internal server error" |
| ProductController.CreateDuplicateIsConflict | Backend/src/interface/controllers/ProductController.js:31-37 | a sku already stored is answered exactly 409 with the use case's message |
| ProductController.CreateSuccessIsCreated | Backend/src/interface/controllers/ProductController.js:24-30 | a created product is answered 201 "Product created successfully" with its row |
| ProductController.UpdateQuantityRouteStatuses | Backend/src/interface/controllers/ProductController.js:43-68 | id 0 is a 400, a negative quantity a 500, an unknown id exactly a 404, a stored id with a storable quantity a 200 with the updated row |
| ProductController.GetRouteStatuses | Backend/src/interface/controllers/ProductController.js:70-87 | 200 exactly for page at least 1 and limit in 1..100, with the requested page; otherwise 500 "Internal server error" |
| AuthController.RegisterReply | Backend/src/interface/controllers/AuthController.js:14-30 | a registration is a 201 with the view; exactly "Username already exists" is a 409; every other error, and only those, is forwarded unchanged |
| AuthController.LoginReply | Backend/src/interface/controllers/AuthController.js:37-53 | a login is a 200 with the session; exactly "Invalid credentials" is a 401; every other error, and only those, is forwarded unchanged |
| AuthController.Register | Backend/src/interface/controllers/AuthController.js:10-30 | the response is the register reply to the use case's outcome; a refused request changes nothing; a successful one inserts the new row under the next id, appends it to the insertion order, advances the id counter and ticks the clock once |
| AuthController.Login | Backend/src/interface/controllers/AuthController.js:33-54 | the answer succeeds exactly when its status is 200, and then says "Login successful" and carries a session for the given username; a failure carries no data |
| AuthController.RequiredIsBadRequest | Backend/src/interface/middleware/errorHandler.js:20-22 | the required-fields message of both use cases is a 400 |
| AuthController.UsernameTooShortIsServerError | Backend/src/interface/middleware/errorHandler.js:18-36 | the username-length message matches no rule: a 500 |
| AuthController.PasswordTooShortIsServerError | Backend/src/interface/middleware/errorHandler.js:18-36 | the password-length message matches no rule: a 500 |
| AuthController.RegisterRouteStatuses | Backend/src/interface/controllers/AuthController.js:10-30 | missing fields are a 400, a short username or password a 500, a taken username exactly a 409, a registration a 201 with the new row's view |
| AuthController.LoginRouteStatuses | Backend/src/interface/controllers/AuthController.js:32-54 | missing fields are a 400; 200 "Login successful" with a session exactly when the credentials match a row; every other request exactly a 401 "Invalid credentials" |
| AuthController.SessionReplyKeepsStatuses | Backend/src/interface/controllers/AuthController.js:14-20 | the corrected register answer differs from the written one only in its data, whose user is the written one's view |
| ProductsPage.Filter | Frontend/src/pages/Products.jsx:108-120 | the listed products are an order-keeping subsequence of the fetched ones, exactly those that pass the three filters |
| ProductsPage.NoFilterListsAll | Frontend/src/pages/Products.jsx:109-117 | with an empty term and no type or stock choice every product is listed |
| ProductsPage.SearchIgnoresCase | Frontend/src/pages/Products.jsx:109-110 | a term and its lower-cased form list the same products |
| ProductsPage.StockClassesPartition | Frontend/src/pages/Products.jsx:114-117 | a quantity of at least 0 is in exactly one stock class; a negative one in none |
| ProductsPage.Types | Frontend/src/pages/Products.jsx:123 | each type of the fetched products exactly once, and no other |
| ProductsPage.TypesInFirstOccurrenceOrder | Frontend/src/pages/Products.jsx:123 | the types are listed in the order of their first occurrence among the fetched products |
| ProductsPage.StockLabel | Frontend/src/pages/Products.jsx:491-495 | "Out of Stock" exactly for 0, "In Stock" exactly above 10, "Low Stock" for every other quantity up to 10 |
| ProductsPage.LabelAgreesWithFilter | Frontend/src/pages/Products.jsx:484-495 | the stock label matches the stock class for every quantity of at least 0 |
| ProductsPage.InlineQuantity | Frontend/src/pages/Products.jsx:458 | input that is not a number becomes 0, a number stays itself |
| ProductsPage.InlineSubmit | Frontend/src/pages/Products.jsx:415-421 | the inline form sends an update exactly when the new quantity differs from the shown one, for that product and with the new quantity |
| ProductsPage.ModalSubmit | Frontend/src/pages/Products.jsx:53-58 | the edit form sends an update exactly when the parsed quantity differs from the product's, NaN included, for the edited product |
| ProductsPage.UpdateOnlyWhenChanged | Frontend/src/pages/Products.jsx:53-58 | both edit paths send an update exactly when the quantity changed, for the edited product and with the new value |
| Dashboard.TotalValue | Frontend/src/pages/Dashboard.jsx:37 | a list in which every product has quantity 0 or price 0 is worth 0 |
| Dashboard.LowStockCount | Frontend/src/pages/Dashboard.jsx:38 | at most the number of products |
| Dashboard.OutOfStockCount | Frontend/src/pages/Dashboard.jsx:39 | at most the number of products |
| Dashboard.StatsOf | Frontend/src/pages/Dashboard.jsx:36-46 | the total is the number of fetched products, and low plus out of stock is at most the total |
| Dashboard.Load | Frontend/src/pages/Dashboard.jsx:28-52 | the figures are always those of the list the page holds; a successful answer gives its products, a failed one the empty list and the initial figures |
| Dashboard.Recent | Frontend/src/pages/Dashboard.jsx:54 | the first min(5, n) products, in order |
| Dashboard.CountsMatchStockFilter | Frontend/src/pages/Dashboard.jsx:38-39 | the two counts are the sizes of the products page's low-stock and out-of-stock lists |
| Dashboard.ClassesAtMostTotal | Frontend/src/pages/Dashboard.jsx:36-39 | low stock plus out of stock is at most the total |
| Dashboard.TotalValueCons | Frontend/src/pages/Dashboard.jsx:37 | the value is the first product's price times quantity plus the value of the rest |
| Dashboard.TotalValueBounds | Frontend/src/pages/Dashboard.jsx:37 | with non-negative prices and quantities the value is at least 0, and 0 when everything is out of stock |
| Dashboard.DashboardOfStore | Frontend/src/pages/Dashboard.jsx:28-54 | the dashboard of a store lists min(100, n) newest-first rows, the figures are theirs, and the recent table shows the five newest |
| Dashboard.StatusLabel | Frontend/src/pages/Dashboard.jsx:223-227 | "Out of Stock" exactly for 0, "In Stock" exactly above 10, "Low Stock" for every other quantity up to 10 |
| Dashboard.SameThresholdsAsProductsPage | Frontend/src/pages/Dashboard.jsx:216-227 | the dashboard labels every quantity as the products page does |
| AuthContext.Reduce | Frontend/src/contexts/AuthContext.jsx:22-54 | only LOGIN_SUCCESS and LOGOUT touch the token and isAuthenticated; an action keeps "authenticated exactly when holding a token" unless it is a login success without a token; an unknown action changes nothing |
| AuthContext.ActionEffects | Frontend/src/contexts/AuthContext.jsx:22-54 | what each of the four actions changes and that it changes nothing else; an unknown action changes nothing |
| AuthContext.InitialState | Frontend/src/contexts/AuthContext.jsx:6-11 | at first no user, no token, not authenticated, loading |
| AuthContext.LogoutIdempotent | Frontend/src/contexts/AuthContext.jsx:37-44 | logging out twice is logging out once, from any state to the same state |
| AuthContext.RunAppend | Frontend/src/contexts/AuthContext.jsx:22-54 | dispatching two sequences in turn is dispatching their concatenation |
| AuthContext.LogoutEndsEveryRun | Frontend/src/contexts/AuthContext.jsx:142-147 | after any actions, a logout leaves the logged-out state |
| AuthContext.RunKeepsConsistent | Frontend/src/contexts/AuthContext.jsx:22-54 | actions whose login successes carry a token keep "authenticated exactly when holding a token" |
| AuthContext.FlowOutcome | Frontend/src/contexts/AuthContext.jsx:88-140 | a flow ends in the payload's login success, or where it started with loading off |
| AuthContext.Login | Frontend/src/contexts/AuthContext.jsx:88-113 | login reports success exactly for a successful answer with data, and then the client is authenticated with a token and not loading; a failure leaves the start state with loading off |
| AuthContext.LoginFlow | Frontend/src/contexts/AuthContext.jsx:88-113 | a 200 login leaves the client authenticated with the session's token and user and reports success; a refusal only toggles loading and reports the backend's message |
| AuthContext.Register | Frontend/src/contexts/AuthContext.jsx:115-140 | as written, register never reports success; a successful answer leaves the client authenticated with neither token nor user, a failed one the start state with loading off |
| AuthContext.RegisterFlowRefused | Frontend/src/contexts/AuthContext.jsx:115-140 | a refused registration only toggles loading and reports the backend's message |
| AuthContext.RegisterFlowLosesToken | Frontend/src/contexts/AuthContext.jsx:115-140 | as written, a successful registration leaves the client authenticated without token or user and reports failure |
| AuthContext.CorrectedRegisterFlow | Frontend/src/contexts/AuthContext.jsx:115-140 | with a session in the register answer, a registration leaves the client authenticated with a token and the new user, consistent, and reports success |

## Left out

- `app.js`, the route files with their validator chains, the Swagger documentation, the migration and the abstract repository class are wiring. The route validators are never read by the controllers, so the model does not enforce them.
- JavaScript numbers are not modelled. In particular, `parseInt` and `parseFloat` of request text and NaN are left out. The backend takes already-parsed integers, and a NaN quantity or price slipping past the `< 0` checks is not represented.
- Prices are modelled as integer cents. Floating-point `price * quantity` and `toFixed(2)` are left out.
- bcrypt and jsonwebtoken are not modelled. Hashing, comparison, signing and verification are parameters, so secrets, salts and the clock-based expiry are not represented.
- `new Date()` is not modelled. The entity's own timestamps are replaced by the store's, which the store's abstract clock supplies.
- Requests are modelled one at a time. Concurrency and async/await are left out, including the race between the sku or username lookup and the insert.
- The repositories wrap errors of the database itself (a lost connection, for instance) as "Error finding …: " followed by the message. Only the errors the table's own constraints raise are modelled, so the lookups never fail.
- The exact texts of Sequelize's validation messages mimic the ORM's wording. They are not the library's real messages.
- The User model file is not part of this model. The user table's only modelled constraint is the unique username, which the register use case relies on.
- ProductRepository.ProductStore.FindAll: requires a limit of at least 1 and an offset of at least 0. This holds for every call the use case makes; `limit: 0` or a negative offset passed to the repository directly is not modelled.
- ProductRepository.ProductStore.Update: Sequelize skips the write when no field changed. The model always writes and refreshes updatedAt. It does so because the entity's price, a parsed number, is compared with the column's DECIMAL value, and whether the two count as equal depends on the database driver. `updateQuantity` and the user repository's `update` do model the skipped write.
- The store's clock ticks on every write, so no two rows share a createdAt. `findAll` orders by createdAt alone, with no tiebreaker, so the order the database gives rows created at the same instant is not represented.
- The quantity column's default of 0 is never used, because the create use case rejects a missing quantity. The constant is declared but not exercised.
- `authenticateToken` looks users up by id through the repository, whose own failures, passed to `next(error)`, are not modelled. The `next()` call and `req.user` are the `Next(user)` outcome.
- The front end's I/O is left out: rendering, hooks, toasts, `localStorage`, `checkAuth` at start-up, the axios interceptors' redirect on 401 and the `logout` API call.
- Of `api.js` only what the pages read is modelled: the `data` of a successful answer, or a thrown error carrying the answer's message.
- `toLowerCase` is modelled for ASCII letters only.
- RegisterUser.InputError: counts the lengths of the username and password in characters. JavaScript's `.length` counts UTF-16 code units, so a character outside the Basic Multilingual Plane counts twice in the source and once in the model. For example, a password of three emoji passes the source's 6-character check but fails the model's.
- CreateProduct.InputError: counts the sku's length in characters, not in UTF-16 code units, as the line above describes.
- The dashboard's and the products page's fetch is modelled as one answer. A failed fetch leaves the dashboard's initial figures. The loading flags are UI state.

In these cases the code differs from its own documentation or comments, and the model follows the code:

- The route documentation at Backend/src/interface/routes/products.js:149-150 declares a 400 "Validation error" for a rejected product. The create use case says a negative quantity or price, or a short SKU, "must be" fixed. Those messages match no rule of the error handler, so the client receives 500 "Internal server error" rather than a 400.
- A unique-index rejection that reaches the store after the use case's own SKU check gives 500, not 409.
- The token guard's comment at Backend/src/interface/middleware/authMiddleware.js:9 expects "Bearer TOKEN", but the guard does not check that the header's first word is "Bearer".

## Findings

| source | as written | input that shows it | evidently intended | confidence | as-written member | corrected member |
|---|---|---|---|---|---|---|
| Frontend/src/contexts/AuthContext.jsx:120-133 with Backend/src/interface/controllers/AuthController.js:16-20 | `register` destructures `{token, user}` from the register answer's data. That data is the new user's view, so both are undefined. The client dispatches a login success without a token, then the greeting's `user.username` throws, and the page is told "Registration failed". | any successful registration, such as username "alice" with password "secret1" on an empty table | the register answer carries a session, as the login answer does; the client ends authenticated with a token and the new user, and reports success | not executed | AuthContext.RegisterFlowLosesToken | AuthContext.CorrectedRegisterFlow |
