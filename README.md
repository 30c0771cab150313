# Drago Decor storefront backend: a Dafny model of its decision-making core

The storefront is a thin REST layer over a document store (FastAPI over
MongoDB). Most of it passes data through. This model covers the three parts
of it that decide something:

- **Complementary colour** (`GET /api/visualizer/complementary`), in module `Colors`.
  - A `#RRGGBB` string is refused (HTTP 400) unless it starts with `#` and has exactly 7 characters.
  - Otherwise its three hexadecimal channels are decoded and each is replaced by `255 - c`.
  - The answer is the complement in upper case, plus three suggestions spelled with the complement's channels: `#RGB`, `#RBG` and `#GRB`.
  - When the shape is right but a channel is not two hexadecimal digits, the source's outcome depends on the characters.
    - It usually fails with an uncaught error (HTTP 500).
    - Python's `int(slice, 16)` also accepts a sign or whitespace around a single digit. For those slices the source answers: `#+f0000` gets `#F0FFFF`, and `#-f0000` gets the 8-character `#10EFFFF`.
  - `Complementary` refuses every such input with the separate error `NotHexDigits` (see Findings). `ComplementaryAsWritten` models the source's own parse.
- **Request handlers** (listing filters, row caps, collections, creation), in module `Catalog`.
  - The product listing builds its store filter one key at a time. `ListProducts` is an imperative method proved equal to the declarative `ProductFilter`.
  - Text parameters count only when non-empty (Python truthiness). Price bounds count whenever they are given, zero included.
  - How the store applies a filter is stated once, as a conjunction of field conditions over a view of the stored document (`DocumentView`, `Matches`). The lemmas use it to show which products and reviews a listing selects.
  - Each of the seven create endpoints validates its body. It then inserts the validated entity into the collection named after the entity's class, or answers the validator's violations (HTTP 422).
- **Entity schemas**, in module `Schemas`.
  - Each entity is a datatype, and the closed literal sets are enumerations.
  - A payload is what a client sent, with every field possibly absent.
  - `ValidateX` either fills in the defaults and yields an entity whose `Valid()` holds, or lists every violation in field order. Each violation carries its field path (nested items are prefixed by list name and position) and the broken rule.
  - Each validator is proved to accept exactly the payloads described by an independent predicate `AcceptsX`.
  - On refusal, each field is reported exactly when it breaks one of its rules, and with that rule. Nothing outside the schema's rules is reported.
  - Each entity sent back as a payload validates exactly when it is `Valid()`, and then to itself.

Prices and totals are `real`, since only comparisons matter, and comparing two finite floats gives the same answer as comparing them as reals.
Integers are unbounded, as Python's are. URL fields are opaque optional
strings.

## Model

| member | source | states |
|---|---|---|
| `Colors.Complementary` | main.py:144-155 | Refuses with `InvalidFormat` exactly when there is no leading `#` or the length is not 7. Fails with `NotHexDigits` exactly when the shape is right but a channel is not hex. Succeeds exactly on `#` plus six hex digits. On success, each output channel is `255 -` the input channel, and the complement is `#` plus six upper-case hex digits. There are exactly 3 suggestions: the complement, then the complement with G/B swapped, then with R/G swapped. |
| `Colors.ComplementaryTwice` | main.py:149-152 | Applying the endpoint to its own complement gives back the input with its hex digits upper-cased. |
| `Colors.ComplementaryTwiceUpper` | main.py:149-152 | An upper-case `#RRGGBB` is a fixed point of complementing twice. |
| `Colors.ParseChannel` | main.py:149-151 | The corrected channel decode: it succeeds exactly when both characters of the slice are hex digits, and yields their value. Python's `int(slice, 16)` also accepts the forms in `ParseChannelAsWritten`. |
| `Colors.FormatChannel` | main.py:152 | `{c:02X}` gives exactly two upper-case hex digits, zero-padded, that decode back to `c`. |
| `Colors.FormatParseChannel` | main.py:149-152 | Encoding a decoded slice gives the slice back, upper-cased. |
| `Colors.ParseColor` | main.py:149-151 | The three channels decode exactly when the six characters after `#` are hex digits. |
| `Colors.FormatColor` | main.py:152 | `#{r:02X}{g:02X}{b:02X}` is an upper-case `#RRGGBB` that decodes back to the same channels. |
| `Colors.FormatParseColor` | main.py:149-152 | Encoding a decoded colour gives the colour back, upper-cased. |
| `Colors.Complement` | main.py:149-151 | Each output channel and its input channel add up to 255. |
| `Colors.ComplementInvolution` | main.py:149-151 | Complementing every channel twice is the identity. |
| `Colors.ComplementaryExample` | main.py:144-155 | `#336699` gives `#CC9966` with suggestions `#CC9966`, `#CC6699`, `#99CC66`. |
| `Colors.BlackExample` | main.py:144-155 | `#000000` gives `#FFFFFF`, and `#FFFFFF` three times as suggestions. |
| `Colors.InvalidFormatExample` | main.py:147-151 | `336699` and `#3366` are refused with `InvalidFormat`. `#GG0000` fails with `NotHexDigits`. |
| `Colors.ParseChannelAsWritten` | main.py:149-151 | Python's `int(slice, 16)` also accepts a sign or whitespace (ASCII `\t`..`\r` and space, plus the non-ASCII characters `str.isspace` accepts; not the separators U+001C..U+001F) before one digit, or whitespace after it. Its value lies in -15..255, is negative only after a `-`, and agrees with `ParseChannel` on two hex digits. |
| `Colors.FormatWideColor` | main.py:152 | `#{r:02X}{g:02X}{b:02X}` with channels that may exceed 255. When none does, it is the usual colour. |
| `Colors.FormatWide` | main.py:152 | `{n:02X}` has two digits below 256 and three from 256 to 4095. |
| `Colors.ComplementaryAsWritten` | main.py:144-155 | The endpoint with Python's parse. It refuses with `InvalidFormat` exactly when `Complementary` does. It fails on the channels only for an input that is not a hex colour. |
| `Colors.AsWrittenAgrees` | main.py:144-155 | On every `#` plus six hex digits, the endpoint as written answers exactly what `Complementary` answers. |
| `Colors.PlusSignAnswered` | main.py:147-152 | As written, `#+f0000` passes the check and is answered `#F0FFFF`. |
| `Colors.LeadingBlankAnswered` | main.py:147-152 | As written, `# f0000` passes the check and is answered `#F0FFFF`. |
| `Colors.TrailingBlankAnswered` | main.py:147-152 | As written, `#f 0000` passes the check and is answered `#F0FFFF`. |
| `Colors.SeparatorNotBlank` | main.py:147-152 | As written, `#` followed by U+001C, `f0000` is not answered, because `int` does not strip the ASCII separator; the corrected endpoint refuses it as not hexadecimal. |
| `Colors.SignedChannelBreaksFormat` | main.py:147-152 | As written, `#-f0000` passes the check and answers `#10EFFFF` (8 characters, not a colour). |
| `Colors.SignedAndBlankRefused` | main.py:147-152 | The corrected model refuses `#+f0000`, `#-f0000`, `# f0000` and `#f 0000` with `NotHexDigits`. |
| `Catalog.ProductFilter` | main.py:48-66 | `category`, `usage`, `variants.hex` and `variants.finish` are present exactly when their parameter is a non-empty string, each with an exact match. `title` is present exactly when `q` is non-empty, with a case-insensitive regex on `q`. `base_price` is present exactly when a bound is given, with `$gte`/`$lte` exactly for the given bounds. No other key appears. |
| `Catalog.ListProducts` | main.py:37-68 | The in-place construction of the filter yields exactly `ProductFilter`. It reads collection `product`, and the limit defaults to 50. |
| `Catalog.ProductFilterSelects` | main.py:48-66 | A product matches the built filter exactly when it meets every given parameter: the category slug, the usage, the title search, some variant with the colour, some variant with the finish, `min_price <= base_price` and `base_price <= max_price`. |
| `Catalog.EmptyTextIgnoredZeroPriceKept` | main.py:49-66 | Empty `category` and `q` add no key. `min_price = 0` still adds `base_price` with `$gte 0`. |
| `Catalog.PriceRangeExample` | main.py:49-66 | With category `pitture` and prices 10..20, of products priced 5, 15 and 25 only the 15 one matches. |
| `Catalog.EmptyFilterMatchesAll` | main.py:28-30 | The empty filter that the category, blog and professional listings pass matches every document. |
| `Catalog.ListCategories` | main.py:28-30 | Reads collection `category` with the empty filter and limit 50. |
| `Catalog.GetReviews` | main.py:75-77 | Reads collection `review` with the single condition `product_id` equal to the id, and limit 100. |
| `Catalog.GetReviewsSelects` | main.py:75-77 | A review is selected exactly when its `product_id` is the requested id. |
| `Catalog.ListBlog` | main.py:93-95 | Reads collection `blogpost` with the empty filter. The limit is the caller's, 20 by default. |
| `Catalog.ListProfessionals` | main.py:109-111 | Reads collection `professional` with the empty filter. The limit is the caller's, 50 by default. |
| `Catalog.CreateCategory` | main.py:32-35 | A body is inserted exactly when the category schema accepts it. The stored record is exactly the validated category, in collection `category`. A refusal answers exactly the validator's violations, and there is at least one. |
| `Catalog.CreateProduct` | main.py:70-73 | A body is inserted exactly when the product schema accepts it. The stored record is exactly the validated product, which is `Valid`, in collection `product`. A refusal answers exactly the validator's violations. |
| `Catalog.CreateReview` | main.py:79-82 | A body is inserted exactly when the review schema accepts it. The stored record is exactly the validated review, which is `Valid`, in collection `review`. A refusal answers exactly the validator's violations. |
| `Catalog.CreateOrder` | main.py:86-89 | A body is inserted exactly when the order schema accepts it. The stored record is exactly the validated order, which is `Valid`, in collection `order`. A refusal answers exactly the validator's violations. |
| `Catalog.CreateBlogPost` | main.py:97-100 | A body is inserted exactly when the blog post schema accepts it. The stored record is exactly the validated post, in collection `blogpost`. A refusal answers exactly the validator's violations. |
| `Catalog.CreateContactMessage` | main.py:102-105 | A body is inserted exactly when the contact schema accepts it. The stored record is exactly the validated message, in collection `contactmessage`, and the answer also carries status `received`. A refusal answers exactly the validator's violations. |
| `Catalog.CreateProfessional` | main.py:113-116 | A body is inserted exactly when the professional schema accepts it. The stored record is exactly the validated professional, in collection `professional`. A refusal answers exactly the validator's violations. |
| `Schemas.ParseLiteral` | schemas.py:21-23 | A literal field is accepted exactly when its spelling is one of the allowed ones, and it yields the value spelled that way. |
| `Schemas.LiteralSpellings` | schemas.py:21-76 | The enumerations' spellings are exactly `opaco, seta, lucido, satinato, opaco-prof` / `interno, esterno, entrambi` / `pending, paid, shipped` / `standard, pro, elite`. |
| `Schemas.FinishRoundTrip` | schemas.py:21-23 | Every finish is accepted under its own spelling and yields itself. |
| `Schemas.UsageRoundTrip` | schemas.py:30 | Every usage is accepted under its own spelling and yields itself. |
| `Schemas.StatusRoundTrip` | schemas.py:54 | Every order status is accepted under its own spelling and yields itself. |
| `Schemas.TierRoundTrip` | schemas.py:76 | Every tier is accepted under its own spelling and yields itself. |
| `Schemas.ValidateEach` | schemas.py:52 | A list field is accepted exactly when every element is, with the elements' results in order. Otherwise every violation of every rejected element is reported at path list field, position, then the element's own path. Every reported violation is such a violation. |
| `Schemas.ValidateCategory` | schemas.py:12-16 | Accepted exactly when name and slug are present. Description and hero image are optional and kept as sent. A refusal reports `name` or `slug` as missing exactly when it is absent, and nothing else. |
| `Schemas.ValidateProductVariant` | schemas.py:18-24 | Accepted exactly when colour name and hex are present, the finish (if given) is one of the five literals, and the stock (if given) is at least 0. The finish defaults to `opaco` and the stock to 0. |
| `Schemas.ProductVariantRefusal` | schemas.py:18-24 | A refusal reports each missing field, a finish outside the literals (naming them), and a stock below 0 (naming the bound), each exactly when it occurs, and nothing else. |
| `Schemas.ValidateProduct` | schemas.py:26-34 | Accepted exactly when title, description, category and a base price of at least 0 are present, the usage (if given) is one of three literals, and every variant is accepted. The usage defaults to `interno`, variants and images to empty lists. The result is `Valid`. |
| `Schemas.ProductRefusal` | schemas.py:26-34 | A refusal reports each own field exactly when it breaks its rule, and with that rule. It reports every violation of a rejected variant at `variants`, position, field. Nothing else is reported. |
| `Schemas.ValidateReview` | schemas.py:36-40 | Accepted exactly when product id, author and a rating in 1..5 are present. The comment is optional. A refusal reports a missing field, a rating below 1 (bound 1) and a rating above 5 (bound 5), each exactly when it occurs, and nothing else. |
| `Schemas.ValidateCartItem` | schemas.py:44-48 | Accepted exactly when the product id and a unit price of at least 0 are present, and the quantity (if given) is at least 1. The quantity defaults to 1. A refusal reports a missing field, a quantity below 1 and a unit price below 0, each exactly when it occurs, and nothing else. |
| `Schemas.ValidateOrder` | schemas.py:50-54 | Accepted exactly when user email, the item list and a total of at least 0 are present, every item is accepted, and the status (if given) is one of three literals. The status defaults to `pending`. The result is `Valid`. |
| `Schemas.OrderRefusal` | schemas.py:50-54 | A refusal reports each own field exactly when it breaks its rule, and with that rule. It reports every violation of a rejected item at `items`, position, field. Nothing else is reported. |
| `Schemas.ValidateBlogPost` | schemas.py:58-63 | Accepted exactly when title, slug and content are present. The cover is optional and the tags default to an empty list. A refusal reports each missing field exactly when it is absent, and nothing else. |
| `Schemas.ValidateContactMessage` | schemas.py:65-68 | Accepted exactly when name, email and message are present. Nothing else is checked. A refusal reports each missing field exactly when it is absent, and nothing else. |
| `Schemas.ValidateProfessional` | schemas.py:72-76 | Accepted exactly when business name and email are present and the tier (if given) is one of three literals. The VAT number is optional and the tier defaults to `standard`. A refusal reports a missing field and a tier outside the literals, each exactly when it occurs, and nothing else. |
| `Schemas.ProductVariant.Valid` | schemas.py:24 | A stored variant's stock is at least 0 (`ge=0`). |
| `Schemas.Product.Valid` | schemas.py:31-32 | A stored product's base price is at least 0 and every variant is `Valid`. |
| `Schemas.Review.Valid` | schemas.py:38 | A stored review's rating lies in 1..5. |
| `Schemas.CartItem.Valid` | schemas.py:47-48 | A stored item's quantity is at least 1 and its unit price at least 0. |
| `Schemas.Order.Valid` | schemas.py:51-53 | A stored order's total is at least 0 and every item is `Valid`. The total is not compared with the items. |
| `Schemas.CategoryRoundTrip` | schemas.py:12-16 | A category sent back as a payload validates to itself. |
| `Schemas.ProductVariantRoundTrip` | schemas.py:18-24 | A variant sent back validates exactly when it is valid, and then to itself. |
| `Schemas.ProductRoundTrip` | schemas.py:26-34 | A product sent back validates exactly when it is `Valid` (price at least 0, every variant's stock at least 0), and then to itself. |
| `Schemas.ReviewRoundTrip` | schemas.py:36-40 | A review sent back validates exactly when its rating is in 1..5, and then to itself. |
| `Schemas.CartItemRoundTrip` | schemas.py:44-48 | A cart item sent back validates exactly when it is valid, and then to itself. |
| `Schemas.OrderRoundTrip` | schemas.py:50-54 | An order sent back validates exactly when it is `Valid` (total at least 0, every item's quantity at least 1 and price at least 0), and then to itself. |
| `Schemas.BlogPostRoundTrip` | schemas.py:58-63 | A blog post sent back validates to itself. |
| `Schemas.ContactMessageRoundTrip` | schemas.py:65-68 | A contact message sent back validates to itself. |
| `Schemas.ProfessionalRoundTrip` | schemas.py:72-76 | A professional sent back validates to itself. |
| `Schemas.RatingAboveBound` | schemas.py:36-40 | A rating of 6 is refused with the single violation `rating`, bound 5. |
| `Schemas.TotalBelowBound` | schemas.py:50-54 | An order total of -1 is refused with the single violation `total`, bound 0. |
| `Schemas.StockBelowBound` | schemas.py:18-24 | A variant stock of -1 is refused with the single violation `stock`, bound 0. |
| `Schemas.NestedViolationExample` | schemas.py:47-52 | A second item with quantity 0 is reported at path `items`, 1, `quantity`. |
| `Schemas.OrderTotalUnchecked` | schemas.py:50-54 | An order whose total (0) disagrees with its items (2 × 10.0) is accepted: the total is never checked against the items. |
| `Schemas.CollectionName` | schemas.py:4-5 | The collection name has the class name's length and no upper-case letter. Each of its letters is the class name's, lowered when upper-case. |
| `Schemas.CollectionNamesDistinct` | schemas.py:4-5 | Two entities share a collection name exactly when they are the same entity. |
| `Schemas.CollectionNameSpellings` | schemas.py:4-5 | Each collection name is the class name in lower case: `category`, `product`, `review`, `order`, `blogpost`, `contactmessage`, `professional`, and so on. |

## Left out

- Document store access (`create_document`, `get_documents`, `db`). `database.py` is not part of this model.
  - A listing is modelled as the `Find` request it issues (collection, filter, limit). A creation is modelled as the `Insert` it issues.
  - Store-assigned identifiers, row order and what the store does with a zero or negative limit are not modelled.
- Regular-expression search. The store's case-insensitive `$regex` search is the parameter `searchCI` and is not defined. `q` is passed unescaped, so it is a pattern, not a literal substring.
- Range matching over arrays. `Satisfies` requires one value to meet both bounds. This agrees with the store for `base_price`, the only field the listing ranges over, because it is a scalar.
- `coverage` (main.py:125-128): floating-point division, `max(0.1, …)` and `round(…, 2)`.
- `apply_color` (main.py:132-142): an upload that streams the bytes back unchanged. This is I/O only.
- `test_database` (main.py:158-188): environment variables and connection probing. These are diagnostics.
- `read_root`, CORS middleware, uvicorn start-up, the `PORT` variable, routing and HTTP status mapping.
- `HttpUrl` well-formedness. URL fields are opaque optional strings.
- Pydantic's type checking and coercion (a string where an int is expected, `4.0` for an int, an explicit `null` for a list).
  - A payload field is either absent (`None`) or a value of the declared type.
  - Floating-point NaN and infinities are not modelled.
- `Colors.ParseChannelAsWritten`: models the sign and whitespace forms Python's `int(s, 16)` accepts, whitespace being ASCII `\t`..`\r` and space plus the non-ASCII characters `str.isspace` accepts. It does not model non-ASCII decimal digits, which `int` also accepts.
- `Colors.Complementary`: refuses a channel with a sign or whitespace (`#+f0000`, `# f0000`, `#f 0000`), although the source answers these. `ComplementaryAsWritten` and the lemmas `PlusSignAnswered`, `LeadingBlankAnswered` and `TrailingBlankAnswered` model what the source answers. `SignedAndBlankRefused` states the refusals.
- Slug uniqueness for categories and blog posts is neither enforced by the source nor modelled.

## Findings

| source | as written | input that shows it | evidently intended | confidence | as-written member | corrected member |
|---|---|---|---|---|---|---|
| main.py:149-151 | `int(slice, 16)` accepts a sign or whitespace around a single digit, so such a channel is decoded, not refused. | `#+f0000`, `# f0000` and `#f 0000` are answered `#F0FFFF`. | Only `#` plus six hex digits is accepted, as the refusal message (`Usa HEX #RRGGBB`) asks. | not executed | `Colors.PlusSignAnswered` | `Colors.Complementary` |
| main.py:147-152 | The format check tests only `#` and the length. `int(slice, 16)` accepts a signed digit, so `255 - int(…)` can reach 270, and `{:02X}` prints it with three digits. | `#-f0000` answers complement `#10EFFFF` (8 characters). | Every answer is `#` plus six upper-case hex digits. A non-hex channel is refused. | not executed | `Colors.SignedChannelBreaksFormat` | `Colors.Complementary` |
