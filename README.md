# FloraCouture core rules in Dafny

FloraCouture is a flower-shop backend (customers, retailers, products,
orders and a chatbot) built on Django, Django REST framework and a small
amount of page JavaScript. Nearly all of it delegates to the framework. This
project models the parts whose behaviour is written out in the repository
itself:

- **Cookie lookup** (`getCookie` in the login and cart page scripts). It
  splits `document.cookie` on `;` and trims each piece. It takes the first
  piece that starts with `name=` and URI-decodes the rest of that piece.
  Otherwise it returns null. The JavaScript `split`, `trim` and `substring`
  operations are written out with their ECMAScript meaning in `JsStrings`.
  The shared specification is `Cookies.GetCookieSpec`. Each page's loop
  (`LoginPage.GetCookie`, `CartPage.GetCookie`) is a method with its own
  loop invariants, and each is proved equal to that specification. So the
  two copies behave the same on every input.
- **Admin previews** (`content_preview`, `keywords_preview`,
  `response_preview` in the chat admin). A text longer than the limit is cut
  to the limit and followed by `...`. Shorter text is shown unchanged.
- **Order endpoints** (`orders/views.py`). `OrderStore` is a class whose
  `orders` field is the order table, a map from id to order record.
  `UpdateStatus` is the PATCH handler and `Cancel` is the DELETE handler;
  both change the table in place. `ListOrders` is the list selection.
  An id that is not in the table gets the framework's 404. The views do not
  check who owns an order, so the model has no owner parameter.
- **Chatbot seeding** (`seed_chatbot`). `BotResponseTable` holds the rows and
  an auto-increment id counter. `Handle` deletes every row, inserts the nine
  predefined entries one at a time, and returns the success line.

Inputs the code reads from its environment are parameters. `document.cookie`
is a string. `decodeURIComponent` is a total function that returns `None`
where the real one throws a URIError; that error escapes `getCookie`. The
JSON `status` of a PATCH is an optional string.

The help texts of the bot-response schema say that the keywords select a
response and that a higher priority number ranks first
(chat/migrations/0003_botresponse_chatbotsession_chatbotmessage_and_more.py,
lines 47 and 54).
No code in the repository does this matching: the knowledge base is only a
schema and seed data. This model follows the code and contains no responder.

## Model

| member | source | states |
|---|---|---|
| `JsStrings.Split` | staticfiles/login.js:98 | `split(';')` gives at least one piece, no piece contains `;`, and joining the pieces with `;` gives back the header |
| `JsStrings.SplitJoin` | staticfiles/login.js:98 | splitting a `;`-join of `;`-free pieces gives back exactly those pieces (the other direction of the round trip) |
| `JsStrings.TrimStartShape` | staticfiles/login.js:100 | the front half of `trim`: the result is a suffix of the input, everything cut is whitespace, and the result does not start with whitespace |
| `JsStrings.TrimEndShape` | staticfiles/login.js:100 | the back half of `trim`: the result is a prefix of the input, everything cut is whitespace, and the result does not end with whitespace |
| `JsStrings.TrimPadded` | staticfiles/login.js:100 | whitespace added on either side of a piece does not change its trimmed form |
| `JsStrings.Substring` | staticfiles/login.js:101 | `substring(start, end)` clamps both indices to the length, so a short piece gives a short result |
| `Cookies.StartsWithAssignmentIff` | staticfiles/login.js:101 | the piece test holds exactly when the piece is `name`, then `=`, then anything; a piece shorter than `name=` never matches |
| `Cookies.LongerNameDoesNotMatch` | staticfiles/login.js:101 | a cookie whose name only extends `name` (`csrftokenX=...`) is not taken for `name` |
| `Cookies.LookupFirstMatch` | staticfiles/login.js:99-104 | when piece `i` is the first matching piece, the result is the decoding of its text after `name=`; later pieces with the same name are ignored |
| `Cookies.LookupNoMatch` | staticfiles/login.js:96-107 | when no piece matches, the result is null |
| `Cookies.LookupNonNull` | staticfiles/login.js:99-104 | a non-null result comes from a first matching piece and is the decoding of its remainder |
| `Cookies.GetCookieOfJoin` | staticfiles/login.js:97-99 | for a non-empty header made of given pieces, the lookup scans exactly those pieces |
| `Cookies.SpaceAfterSeparator` | staticfiles/login.js:98-102 | in `other; name=value` the space after `;` does not hide the cookie: the result is the decoding of `value` |
| `LoginPage.GetCookie` | staticfiles/login.js:95-108 | the login page's loop returns exactly `GetCookieSpec` of the header, name and decoder, and null for an empty header |
| `CartPage.GetCookie` | staticfiles/cart.js:89-102 | the cart page's loop returns exactly `GetCookieSpec` too, so it agrees with the login copy on every input, and returns null for an empty header |
| `ChatAdmin.Truncate` | chat/apps.py:32 | text within the limit is unchanged; longer text becomes its first `limit` characters plus `...`; the result is at most `limit + 3` long and starts with the first `min(len, limit)` input characters |
| `ChatAdmin.ContentPreview` | chat/apps.py:31-32 | message content uses limit 50: at most 53 characters, unchanged up to 50 |
| `ChatAdmin.KeywordsPreview` | chat/apps.py:42-43 | keywords use limit 30: at most 33 characters, unchanged up to 30 |
| `ChatAdmin.ResponsePreview` | chat/apps.py:46-47 | response text uses limit 50: at most 53 characters, unchanged up to 50 |
| `ChatAdmin.TruncateIdempotent` | chat/apps.py:32 | previewing a preview gives the same preview |
| `ChatAdmin.TruncateFixedPoints` | chat/apps.py:32 | a preview leaves a text unchanged exactly when it is within the limit, or is `limit + 3` long and already ends in `...` at the limit |
| `Orders.OrderStore.UpdateStatus` | orders/views.py:34-41 | a missing id gives 404; a truthy status sets that order's status to exactly that value and replies with the success message; a missing or empty status gives "Status field is required" and changes nothing; other orders and the order's other fields never change |
| `Orders.OrderStore.Cancel` | orders/views.py:66-71 | a missing id gives 404; an order whose status is exactly `Pending` is removed with the success message; any other order gives "Cannot cancel an order that is not pending" and stays unchanged; no other order is touched |
| `Orders.StatusChangeKeepsSelections` | orders/views.py:36-57 | changing an order's status leaves every user's retailer selection and customer selection unchanged, so a status update never moves an order between lists |
| `Orders.RemovalShrinksSelections` | orders/views.py:53-69 | removing an order takes exactly that id out of every user's retailer and customer selections and leaves the rest |
| `Orders.OrderStore.ListOrders` | orders/views.py:50-57 | if the user is retailer on any order, the list is exactly those orders; otherwise it is exactly the user's customer orders; it is empty only when the user has neither |
| `SeedChatbot.SeedResponses` | chat/management/commands/seed_chatbot.py:13-75 | the nine entries, each with one of the nine declared categories and a priority from 1 to 3 |
| `SeedChatbot.NatToString` | chat/management/commands/seed_chatbot.py:81 | the count is printed as decimal digits with no leading zero, and those digits denote exactly the count |
| `SeedChatbot.BotResponseTable.DeleteAll` | chat/management/commands/seed_chatbot.py:10 | every row is deleted; the id counter is kept |
| `SeedChatbot.BotResponseTable.Create` | chat/management/commands/seed_chatbot.py:78 | one row with the next id is appended |
| `SeedChatbot.BotResponseTable.Handle` | chat/management/commands/seed_chatbot.py:8-81 | afterwards the table holds exactly the seed entries in listed order; no earlier row survives; the rows get consecutive ids starting at the old counter, and the counter moves past them; the reported count is the number of rows |
| `SeedChatbot.ReseedIsIdempotent` | chat/management/commands/seed_chatbot.py:10-78 | running the command twice leaves the same entries, and the same count, as running it once |
| `SeedChatbot.ReportedCount` | chat/management/commands/seed_chatbot.py:80-81 | the success line reads "Successfully created 9 chatbot responses" |

## Left out

- The DOM and `fetch` code of the page scripts, the cart total (JavaScript floating-point numbers) and `index.js`: these are user-interface and network code.
- `decodeURIComponent` is a parameter, not a percent-decoder. The model keeps only its two outcomes: a string, or a thrown URIError.
- JavaScript strings are UTF-16 code units, but the model's strings are Unicode code points. `name.length` and `substring` differ from the model only for characters outside the Basic Multilingual Plane.
- `document.cookie` is always a string, so its truthiness test is the empty-string test.
- Authentication, the 401 responses, and serialising the listed orders: these come from framework classes that are not visible.
- The order model file (orders/models.py) is not part of this model. The order fields `customer`, `retailer` (nullable) and `status` are taken from the filters and assignments in the views. The order tests create orders with a `user` field (orders/tests.py:53-61), and the order serializer lists `id`, `user`, `status`, `created_at` and `items` (orders/serializers.py:15). Together these suggest the order model has `user` and perhaps no `retailer` or `customer` field. In that case the filters at orders/views.py:53 and :57 would fail at run time. This cannot be confirmed without the model file, so the model follows the views.
- `Orders.OrderStore.UpdateStatus`: the PATCH `status` is modelled as an optional string, so JSON values that are not strings (numbers, booleans, lists) are not modelled. Their Python truthiness is not captured.
- `Orders.OrderStore.ListOrders`: returns a set of ids, because the queryset's order comes from model metadata that is not visible.
- The seed command's stdout styling is left out. Only the text of the success line is modelled.
- Database transactions and concurrent requests are left out. Each order request and each seed run is modelled as one atomic step. In the source, `patch` reads the order (orders/views.py:35) and writes every field back with `save()` (orders/views.py:39). A concurrent change to another field of the same order can therefore be lost. `Orders.OrderStore.UpdateStatus` promises that the order's other fields never change only when requests run one at a time.
- The chat models file (chat/models.py) defines only `ChatRoom` and `Message`. The seed command imports `BotResponse` from it (chat/management/commands/seed_chatbot.py:2), and so does the chat view module, together with `ChatbotSession` (chat/views.py:3). The admin setup registers `ChatbotSession`, `ChatbotMessage` and `BotResponse` from it (chat/apps.py:13,20,35). Those three classes appear only in migration 0003 (chat/migrations/0003_botresponse_chatbotsession_chatbotmessage_and_more.py:15-110). As the files stand, the seed command would stop with an ImportError before `handle` runs. `ChatConfig.ready()` would stop with an AttributeError before any preview is registered. This cannot be confirmed without running the code. The model follows the schema in migration 0003.
- The chat websocket consumers, chat rooms and sessions, the registration, login, profile and product views, the serializers, the user managers, admin registrations, URL configurations and migrations: these are framework glue or declarations. The list of nine categories comes from the migration.
- No chatbot keyword matcher or priority tie-break is modelled, because the code contains none.
