# Purchases: a verified model of the cart, checkout and payment logic

This project models the `purchases` app of a small Django course shop. It
covers the records in `purchases/models.py`, the views in `purchases/views.py`
(course list flags, session cart, single-course order, cart checkout, payment
callback) and the `seed_courses` management command. Each is stated in Dafny and
proved against its contracts.

The database is the class `Views.Shop`:

- the course table, a map from course id to `Course`;
- the transaction table, a map from transaction id to `Transaction`;
- one auto-increment counter per table;
- each user's single profile, a map from user id to the set of purchased
  course ids (a many-to-many relation, so adding a course twice is a no-op).

The visitor's session is the class `Views.Session`. Its `cart` field holds
nothing, a list of course ids, or some other value.

The list queries the views and the seed command run are functions of `Queries`,
each listing ids in ascending order; `Queries` also holds the price sums and
the sets those lists are proved against. The single-course lookup and the
profile lookups are `Views.Shop.Purchasable` and `Views.Shop.Owned`. The
Razorpay client is an oracle:

- order creation is a `GatewayOrder` argument (`GatewayError` or
  `GatewayOrderId(id)`);
- signature verification is a boolean argument.

Loops that write rows one by one (`cart_checkout`'s create loop and its two
update loops, the callback's paid loop and the seeding loop) are methods with
loop invariants. Each is tied to a specification function:

- `Payments.Fanout`: the rows of a checkout;
- `Payments.Settle` and `Payments.Grant`: the effect of a callback;
- `SeedCourses.Seed`: the effect of the seed command.

The lemmas next to those functions state what the source promises.

Modules: `Wrappers` (Option, Result), `Sequences` (distinctness and ordering
facts), `Models`, `Cart`, `Queries`, `Payments`, `Views`, `SeedCourses`.

Behaviour of the source that the model makes explicit:

- A callback with a valid signature succeeds, and clears the cart, even when
  no row carries its order id.
- Neither callback path looks at a row's prior status. An invalid-signature
  callback for an order that was already paid marks its rows failed, while
  the buyers' profiles keep the courses.

## Model

| member | source | states |
|---|---|---|
| Models.StatusValue | purchases/models.py:24-28 | every status is stored as one of the three values of the choice list |
| Models.ParseStatus | purchases/models.py:24-28 | a stored value is accepted exactly when it is one of the values of the choice list |
| Models.StatusRoundTrip | purchases/models.py:24-33 | reading back a stored status gives the same status |
| Models.StoredStatusValues | purchases/models.py:24-33 | the default status is stored as `created`, and the callback's outcomes as `paid` and `failed` |
| Models.NewTransaction | purchases/models.py:30-36 | a new transaction has the given user, course and amount, the default status `created`, and blank order id, payment id and signature |
| Cart.GetCart | purchases/views.py:141-145 | a list in the session is the cart; anything else, including no value, reads as the empty cart |
| Cart.SaveCart | purchases/views.py:148-150 | reading back a saved cart gives the same list |
| Cart.AddId | purchases/views.py:160-163 | the ids after adding are the old ids plus the new one; the old cart is a prefix; at most one id is added; a cart without repeats keeps none |
| Cart.AddIdIdempotent | purchases/views.py:160-163 | adding the same id twice is the same as adding it once |
| Cart.AddIdAppends | purchases/views.py:161-162 | an absent id goes to the end, and a present one changes nothing |
| Cart.RemoveFirst | purchases/views.py:256-257 | an absent id leaves the cart unchanged; otherwise the cart is one shorter and its multiset loses exactly one copy of the id |
| Cart.FirstIndex | purchases/views.py:257 | the position of an id's first occurrence: it holds the id and no earlier position does |
| Cart.RemoveFirstDropsFirstOccurrence | purchases/views.py:257 | removing a present id deletes exactly its first occurrence and keeps every other id in its order |
| Cart.RemoveFromDistinctCart | purchases/views.py:255-258 | on a cart without repeats, removal drops exactly that id and keeps the other ids in order |
| Cart.WithoutKeepsDistinct | purchases/views.py:255-258 | removing from a cart without repeats leaves a cart without repeats |
| Queries.ActiveIds | purchases/views.py:17 | lists in ascending order exactly the ids of the active courses |
| Queries.EligibleIds | purchases/views.py:203 | lists in ascending order exactly the active courses whose id is in the cart and not owned |
| Queries.EligibleIdsListEligibleSet | purchases/views.py:175-181 | the listed ids are the set of active, unowned cart courses, each once, however often the cart repeats it |
| Queries.Unowned | purchases/views.py:178-181 | the ids the loop keeps are exactly the listed ids that are not owned |
| Queries.UnownedOfEligible | purchases/views.py:175-181 | skipping owned ids while walking the active cart courses yields the eligible list |
| Queries.CartTotal | purchases/views.py:175-181 | the active cart courses less the owned ones are the eligible list, and the sum of their prices is the sum over the eligible set |
| Queries.SeqSumIsSetSum | purchases/views.py:207 | `SeqPriceSum`, the sum of prices over the listed courses, over a list without repeats equals the sum over its set of ids, so the total does not depend on query order |
| Queries.OrderRows | purchases/views.py:118 | lists in ascending order exactly the rows that carry the order id |
| Queries.TitleMatches | purchases/management/commands/seed_courses.py:35-36 | lists in ascending order exactly the courses that carry the title |
| Queries.TitleMatchesCount | purchases/management/commands/seed_courses.py:35-42 | the title lookup finds as many courses as carry the title |
| Payments.Fanout | purchases/views.py:211-219 | the rows of a checkout are keyed by exactly the consecutive ids from the counter on, one per eligible course |
| Payments.FanoutRows | purchases/views.py:211-236 | the row at the counter plus j is for the j-th eligible course at its price, with the user, the final status and order id, and blank payment id and signature |
| Payments.ValidateCallback | purchases/views.py:89-98 | accepted exactly when the request is a POST with a non-empty payment id, order id and signature; a non-POST is `Invalid method`, anything else `Missing parameters` |
| Payments.SettleTouchesOnlyTheOrder | purchases/views.py:110-123 | `Settle` is the bulk update of an order's rows; settling keeps the row ids; rows of other orders are unchanged; rows of the order get the status, payment id and signature and keep user, course, amount and order id |
| Payments.BlankOrderRowsAreNeverSettled | purchases/views.py:97-114 | an accepted callback never touches a row whose order id is blank |
| Payments.GrantAddsExactlyTheOrder | purchases/views.py:118-125 | `Grant` adds each row's course to its buyer's profile; granting keeps the set of profiles, takes no course away, adds every row's course to its buyer, and adds nothing that no row of the order brings |
| Payments.SettleKeepsPurchases | purchases/views.py:118-125 | settling keeps what each user bought in the order |
| Payments.ReplayedPaymentChangesNothing | purchases/views.py:118-125 | replaying a successful callback leaves both the rows and the profiles as they are |
| Views.RemoveFromCart | purchases/views.py:253-262 | an id in the cart is removed once and the cart saved; otherwise the session is untouched; the count is the cart's length |
| Views.Shop.constructor | purchases/models.py:15-17 | empty tables and one empty profile for each user |
| Views.Shop.CourseList | purchases/views.py:16-38 | `Owned` is the viewer's profile courses, none without a profile (lines 22-23); one item per active course, in id order, with its title and description; purchased exactly when the viewer owns it; in the cart exactly when its id is in the cart; the count is the number of distinct cart ids |
| Views.Shop.AddToCart | purchases/views.py:153-166 | `Purchasable` is the lookup of an active course by id (line 155), `Owned` the profile check (156); a missing or inactive course is not found and an owned course is refused, both with the cart unchanged; otherwise the id is appended unless already there and the count is the new length |
| Views.Shop.CartView | purchases/views.py:169-192 | the listed ids are the eligible ones, and the total is the sum of prices over the set of active, unowned cart courses |
| Views.Shop.CreateOrder | purchases/views.py:41-84 | with `Purchasable` (line 43) and `Owned` (45): a missing course is not found and an owned course creates nothing; otherwise one new row at the counter for the course's price, failed with a blank order id on a gateway error, or created with the gateway's order id; other tables unchanged and consistent |
| Views.Shop.CartCheckout | purchases/views.py:195-250 | an empty cart or one with no eligible course creates nothing; otherwise one row per eligible course, all failed with a blank order id on a gateway error, or all created with the one order id; the amount is the price sum over the eligible set; earlier rows are untouched |
| Views.Shop.PlaceOrder | purchases/views.py:207-236 | creates the order's rows from the counter on, then ends them failed or stamped with the order id; the amount is the sum of the prices |
| Views.Shop.CreateRows | purchases/views.py:211-219 | the loop adds the created rows of the order from the counter on and advances the counter by their number |
| Views.Shop.MarkRowsFailed | purchases/views.py:228-232 | the loop turns the order's just-created rows into failed rows and changes nothing else |
| Views.Shop.StampOrderId | purchases/views.py:234-236 | the loop records the order id on each of the order's just-created rows and changes nothing else |
| Views.Shop.PaymentCallback | purchases/views.py:87-132 | a rejected request changes nothing; a bad signature settles the order as failed and keeps profiles and cart; a good one settles the order as paid, grants its courses to their buyers and clears the cart, reporting the course when the order has one row |
| Views.Shop.PayOrder | purchases/views.py:118-125 | the loop over the order's rows, as loaded before it starts, marks each paid and adds its course to its user's profile |
| Views.Shop.PayRow | purchases/views.py:120-125 | one pass of that loop: the row is saved paid with the gateway ids and its course joins its user's profile |
| Views.PaidSoFarSettles | purchases/views.py:118-123 | marking the order's rows paid one after the other, in any order, is settling the order as paid |
| Views.GrantedSoFarGrants | purchases/views.py:118-125 | adding the order's rows' courses one after the other, in any order, is granting the order |
| Views.RowsGrant | purchases/views.py:118-125 | the courses the order's rows, in any order, bring a user are exactly what that user bought in the order |
| Views.OrderRowsListTheOrder | purchases/views.py:118 | the order query lists every row of the order, each once, and no other row |
| Views.NewRowsKeepValid | purchases/views.py:211-219 | new order rows for a user with a profile, over existing courses, keep every row's user and course known and every id below its counter |
| Views.SettledOrderIsValid | purchases/views.py:118-125 | settling and granting an order keeps the tables consistent |
| SeedCourses.SeedGrows | purchases/management/commands/seed_courses.py:33-44 | `Seed` is the loop line by line (create a missing title, keep a single one, stop at a repeated one); the run keeps every existing course unchanged, keeps ids below the counter, and counts exactly the ids it used |
| SeedCourses.SeedCreatesFromLines | purchases/management/commands/seed_courses.py:35-42 | every course the run creates sits at a fresh id and is an active course with a catalog line's title, description and price |
| SeedCourses.SeedKeepsSingleTitles | purchases/management/commands/seed_courses.py:35-41 | a title carried by exactly one course keeps exactly that course: the defaults apply only on creation |
| SeedCourses.SeedFinishesIff | purchases/management/commands/seed_courses.py:35-42 | the run finishes exactly when no line's title was carried by two or more courses; a stop names such a title |
| SeedCourses.SeedCountsMissing | purchases/management/commands/seed_courses.py:33-44 | a finished run's count is the number of distinct line titles that no course carried before |
| SeedCourses.SeedCoversLines | purchases/management/commands/seed_courses.py:34-42 | after a finished run every line's title names exactly one course |
| SeedCourses.SeedNothingMissing | purchases/management/commands/seed_courses.py:34-44 | when every title already names exactly one course, the run creates nothing, counts 0 and finishes |
| SeedCourses.SeedIsIdempotent | purchases/management/commands/seed_courses.py:34-44 | a second run of the catalog after a finished one creates nothing, reports 0 and leaves the table alone |
| SeedCourses.GetOrCreateAll | purchases/management/commands/seed_courses.py:33-44 | the loop leaves the course table, counter and outcome the run describes, keeps the other tables and keeps them consistent |
| SeedCourses.Handle | purchases/management/commands/seed_courses.py:9-46 | the command runs that loop over the twenty catalog lines |

## Left out

- The Razorpay client: order creation and HMAC signature verification are oracle arguments. The request body sent to the gateway (amount, currency, notes) is not modelled.
- Framework plumbing is kept only for its effect on the tables and the session: the ORM, session persistence and its `modified` flag, template rendering, the choice between a JSON reply and a redirect, `login_required` and `csrf_exempt`.
- Display values are not modelled. These are the rupee amounts computed with floating-point division and `:.2f` formatting, and the `__str__` methods.
- The `created_at` and `updated_at` timestamps are not modelled, because they come from the clock.
- `profile_view` is not modelled. It only renders the profile.
- `purchases/admin.py` and `purchases/urls.py` are not part of this model. They hold declarative configuration only.
- `purchases/apps.py` and the `signals` module it imports are not part of this model. The model assumes that every user who orders has a profile, so the callback's `t.user.profile` always exists.
- Concurrent requests and duplicate callbacks racing each other are left out. The source leaves them to the database.
- Column limits (`max_length`) and validation of the values stored in a session list are left out. The cart holds course ids only.
- The seed command's exceptions other than MultipleObjectsReturned are left out. An example is an integrity error from a concurrent insert.
- The seed command's stdout message is not modelled. `Seeded(n)` carries the count it prints.
- Views.Shop.CartView: the items are the listed course ids. The display records built from them are not modelled.
- Views.Shop.CartCheckout: the page the view renders is reduced to its order id and amount.
- Views.Shop.CreateOrder: the page the view renders is reduced to the new row's id, the order id and the amount.
- Queries.EligibleIds, Queries.OrderRows and Queries.TitleMatches: the querysets of `cart_view`, `cart_checkout`, the callback's row lookup and `get_or_create` have no `order_by`, and the model lists their results in id order. The totals are proved independent of that order (`Queries.SeqSumIsSetSum`), and so is the callback's outcome (`Views.PaidSoFarSettles` and `Views.GrantedSoFarGrants` hold for any order of the rows). The seed command looks only at how many courses a title names.
- Queries.TitleIds: the model compares titles exactly. The database's `title=` match follows its collation, which may ignore case or trailing spaces.
- Views.Shop.CreateOrder and Views.Shop.CartCheckout require the user to have a profile. The source checks `hasattr(user, 'profile')`, but the callback would fail later for a buyer without one.
