# Stream API exercises — a Dafny model

The repository is a set of unit tests that practise java.util.stream idioms on
three in-memory entity collections: products, customers and orders. Each
implemented exercise is one pipeline. It starts from a repository's
`findAll()` list and applies filter, map, flatMap, distinct, sorted and limit.

This project models those pipelines as pure functions over sequences:

- exercise1, 1a and 1b: books (category "Books", ignoring case) priced over 100;
- exercise4: distinct products of tier-2 customers' orders placed strictly
  between 2021-02-01 and 2021-04-01;
- exercise5: the three cheapest book prices;
- exercise6: the three most recent orders;
- exercise7: distinct products of the orders placed on 2021-03-15.

It proves what each pipeline returns: membership, multiplicity, order, sortedness,
length, and the absence of duplicates.

Modules:

- `Models` (models.dfy): `Product`, `Customer`, `Order` and `Date`. `Date` has
  `IsBefore`, `IsAfter` and `IsEqual`, as `java.time.LocalDate` does.
- `Ascii` (ascii.dfy): `String.equalsIgnoreCase`, with case folding of ASCII letters.
- `Streams` (streams.dfy): the stream operations the pipelines use, plus
  `Predicate.and`. It also holds their laws: filter is a subsequence and keeps
  multiplicities, two filters equal one filter by the conjunction, and
  distinct keeps first occurrences.
- `Sorting` (sorting.dfy): `sorted()` on prices, and `sorted` with
  `comparing(Order::getOrderDate).reversed()` on orders. Both are insertion
  sorts. The lemmas prove sortedness, permutation, uniqueness of the ascending
  order, stability on equal dates, and what `limit(n)` leaves out.
- `StreamApiTest` (exercises.dfy): one function per exercise, with the
  properties each one promises.
- `StreamApiScenarios` (scenarios.dfy): lemmas stating what exercises 1, 4
  and 5 return on small concrete inputs.

Modelling choices:

- An order's products are a sequence, in the order `getProducts()` yields them.
- The exercise6 pipeline ends in `limit(3)` with no terminal operation. The
  stream is therefore never evaluated in the source. The model gives the list
  the pipeline would produce if it were collected.

## Model

| member | source | states |
|---|---|---|
| `Streams.Filter` | src/test/java/space/gavinklfong/demo/streamapi/MyStreamApiTest.java:40-41 | `filter` keeps exactly the input elements satisfying the predicate and never grows the list |
| `Streams.FilterIsSubseq` | src/test/java/space/gavinklfong/demo/streamapi/MyStreamApiTest.java:40-41 | the result of `filter` is a subsequence of its input (encounter order kept) |
| `Streams.FilterCount` | src/test/java/space/gavinklfong/demo/streamapi/MyStreamApiTest.java:40-41 | `filter` keeps every occurrence of a selected element and none of any other |
| `Streams.FilterFilter` | src/test/java/space/gavinklfong/demo/streamapi/MyStreamApiTest.java:47-50 | filtering by p then by q equals one filter by `p.and(q)` |
| `Streams.FilterExt` | src/test/java/space/gavinklfong/demo/streamapi/MyStreamApiTest.java:56-58 | predicates that agree on every element select the same list |
| `Streams.FilterAllPass` | src/test/java/space/gavinklfong/demo/streamapi/MyStreamApiTest.java:40-41 | a filter every element passes returns its input unchanged |
| `Streams.FilterIdempotent` | src/test/java/space/gavinklfong/demo/streamapi/MyStreamApiTest.java:40-41 | filtering twice by the same predicate equals filtering once |
| `Streams.FilterAppend` | src/test/java/space/gavinklfong/demo/streamapi/MyStreamApiTest.java:88-90 | filter distributes over concatenation of the input |
| `Streams.Map` | src/test/java/space/gavinklfong/demo/streamapi/MyStreamApiTest.java:101 | `map` keeps the length and applies the function at every position |
| `Streams.FlatMap` | src/test/java/space/gavinklfong/demo/streamapi/MyStreamApiTest.java:91 | an element is in the flattened stream exactly when some input's sub-sequence contains it |
| `Streams.FlatMapOne` | src/test/java/space/gavinklfong/demo/streamapi/MyStreamApiTest.java:91 | flatMap over one order yields that order's products whole, every occurrence in its own order |
| `Streams.FlatMapEmpty` | src/test/java/space/gavinklfong/demo/streamapi/MyStreamApiTest.java:91 | flatMap over no elements is empty; with `FlatMapOne` and `FlatMapAppend` this fixes flatMap as in-order concatenation |
| `Streams.FlatMapAppend` | src/test/java/space/gavinklfong/demo/streamapi/MyStreamApiTest.java:91 | flatMap distributes over concatenation of the input |
| `Streams.DistinctFrom` | src/test/java/space/gavinklfong/demo/streamapi/MyStreamApiTest.java:92 | with a set of already emitted elements, emits exactly the unseen elements of the input, without duplicates |
| `Streams.Distinct` | src/test/java/space/gavinklfong/demo/streamapi/MyStreamApiTest.java:92 | `distinct` holds exactly the input's elements, none twice |
| `Streams.DistinctIsFirstOccurrences` | src/test/java/space/gavinklfong/demo/streamapi/MyStreamApiTest.java:92 | `distinct` equals the reference list of first occurrences, in first-occurrence order |
| `Streams.DistinctIsSubseq` | src/test/java/space/gavinklfong/demo/streamapi/MyStreamApiTest.java:92 | the result of `distinct` is a subsequence of its input |
| `Streams.DistinctFromNoDup` | src/test/java/space/gavinklfong/demo/streamapi/MyStreamApiTest.java:92 | `distinct` of a list without duplicates, none of them seen, returns that list |
| `Streams.Limit` | src/test/java/space/gavinklfong/demo/streamapi/MyStreamApiTest.java:103 | `limit(n)` is the prefix of length min(n, size) |
| `Ascii.ToLowerFolds` | src/test/java/space/gavinklfong/demo/streamapi/MyStreamApiTest.java:40 | two characters fold alike exactly when they are equal or one is the upper-case ASCII form of the other |
| `Ascii.ToLowerIdempotent` | src/test/java/space/gavinklfong/demo/streamapi/MyStreamApiTest.java:40 | folding a character twice gives the same as folding it once |
| `Ascii.LowerString` | src/test/java/space/gavinklfong/demo/streamapi/MyStreamApiTest.java:40 | lower-casing keeps the length and folds every character |
| `Ascii.EqualsIgnoreCaseAt` | src/test/java/space/gavinklfong/demo/streamapi/MyStreamApiTest.java:40 | `equalsIgnoreCase` holds iff the lengths agree and every character pair folds alike |
| `Ascii.EqualsIgnoreCaseIsLowerEquality` | src/test/java/space/gavinklfong/demo/streamapi/MyStreamApiTest.java:40 | `equalsIgnoreCase` holds iff the lower-cased strings are equal |
| `Ascii.EqualsIgnoreCaseReflexive` | src/test/java/space/gavinklfong/demo/streamapi/MyStreamApiTest.java:40 | every string equals itself ignoring case |
| `Sorting.InsertAsc` | src/test/java/space/gavinklfong/demo/streamapi/MyStreamApiTest.java:102 | inserting a price into an ascending list keeps it ascending and adds exactly that price |
| `Sorting.SortAsc` | src/test/java/space/gavinklfong/demo/streamapi/MyStreamApiTest.java:102 | `sorted()` returns an ascending permutation of the prices |
| `Sorting.SortedAscUnique` | src/test/java/space/gavinklfong/demo/streamapi/MyStreamApiTest.java:102 | two ascending permutations of the same prices are equal, so the sort's result is determined |
| `Sorting.LimitSortedAsc` | src/test/java/space/gavinklfong/demo/streamapi/MyStreamApiTest.java:102-103 | `limit(n)` after `sorted()` is ascending, a sub-multiset, and no price left out is below the last kept |
| `Sorting.SortedAscPrefix` | src/test/java/space/gavinklfong/demo/streamapi/MyStreamApiTest.java:102-103 | a prefix of an ascending list is a sub-multiset, and what it leaves out is at least its last element |
| `Sorting.InsertNewestFirst` | src/test/java/space/gavinklfong/demo/streamapi/MyStreamApiTest.java:111 | inserting an order into a newest-first list keeps it newest-first and adds exactly that order |
| `Sorting.SortNewestFirst` | src/test/java/space/gavinklfong/demo/streamapi/MyStreamApiTest.java:111 | sorting by order date reversed returns a permutation with non-increasing dates |
| `Sorting.InsertNewestFirstOnDate` | src/test/java/space/gavinklfong/demo/streamapi/MyStreamApiTest.java:111 | insertion places the order ahead of every later-listed order of its own date |
| `Sorting.SortNewestFirstStable` | src/test/java/space/gavinklfong/demo/streamapi/MyStreamApiTest.java:111 | the sort is stable: orders of any one date keep their input order |
| `Sorting.LimitNewestFirst` | src/test/java/space/gavinklfong/demo/streamapi/MyStreamApiTest.java:111-112 | `limit(n)` after the date sort is newest-first, a sub-multiset, and no order left out is more recent than the last kept |
| `Sorting.NewestFirstPrefix` | src/test/java/space/gavinklfong/demo/streamapi/MyStreamApiTest.java:111-112 | a prefix of a newest-first list is a sub-multiset, and no order it leaves out is more recent than its last |
| `StreamApiTest.Exercise1` | src/test/java/space/gavinklfong/demo/streamapi/MyStreamApiTest.java:38-42 | exercise1 returns exactly the products whose category lower-cases to "books" and whose price exceeds 100, with their multiplicities, as a subsequence of the input |
| `StreamApiTest.Exercise1a` | src/test/java/space/gavinklfong/demo/streamapi/MyStreamApiTest.java:45-51 | exercise1a (`allBooks.and(greater)`) selects exactly the books priced over 100 |
| `StreamApiTest.Exercise1b` | src/test/java/space/gavinklfong/demo/streamapi/MyStreamApiTest.java:55-60 | exercise1b (BiPredicate and price test) selects exactly the books priced over 100 |
| `StreamApiTest.Exercise1Formulations` | src/test/java/space/gavinklfong/demo/streamapi/MyStreamApiTest.java:40-59 | the three formulations of exercise1 return the same list for every input |
| `StreamApiTest.BooksIgnoringCase` | src/test/java/space/gavinklfong/demo/streamapi/MyStreamApiTest.java:40 | a category equals "Books" ignoring case iff it lower-cases to "books" |
| `StreamApiTest.BooksIgnoringCaseAll` | src/test/java/space/gavinklfong/demo/streamapi/MyStreamApiTest.java:40 | the same, for every product at once |
| `StreamApiTest.Exercise1CaseInsensitive` | src/test/java/space/gavinklfong/demo/streamapi/MyStreamApiTest.java:40 | re-casing one product's category does not change whether exercise1 selects it |
| `StreamApiTest.BooksSpellings` | src/test/java/space/gavinklfong/demo/streamapi/MyStreamApiTest.java:40 | "BOOKS", "books" and "Books" qualify and "Book" does not |
| `StreamApiTest.Exercise4Orders` | src/test/java/space/gavinklfong/demo/streamapi/MyStreamApiTest.java:87-90 | the three chained order filters equal one filter by "tier 2 and strictly inside the window" |
| `StreamApiTest.Exercise4` | src/test/java/space/gavinklfong/demo/streamapi/MyStreamApiTest.java:81-94 | exercise4 has no duplicates and lists a product iff some tier-2 order dated strictly between 2021-02-01 and 2021-04-01 contains it |
| `StreamApiTest.Exercise4FirstOccurrenceOrder` | src/test/java/space/gavinklfong/demo/streamapi/MyStreamApiTest.java:91-92 | exercise4 lists the products in first-occurrence order over the selected orders' products |
| `StreamApiTest.Exercise4IgnoresOthers` | src/test/java/space/gavinklfong/demo/streamapi/MyStreamApiTest.java:88-90 | an order outside the tier-2 window contributes nothing, wherever it stands |
| `StreamApiTest.Exercise4BoundsExclusive` | src/test/java/space/gavinklfong/demo/streamapi/MyStreamApiTest.java:82-90 | orders dated exactly 2021-02-01 or 2021-04-01 contribute nothing (exclusive bounds) |
| `StreamApiTest.BookPrices` | src/test/java/space/gavinklfong/demo/streamapi/MyStreamApiTest.java:100-101 | there is one price per book, and the i-th price is the price of the i-th book in input order |
| `StreamApiTest.BookPricesMembers` | src/test/java/space/gavinklfong/demo/streamapi/MyStreamApiTest.java:100-101 | a price is a book price iff some book in the input carries it |
| `StreamApiTest.Exercise5` | src/test/java/space/gavinklfong/demo/streamapi/MyStreamApiTest.java:98-105 | exercise5 is ascending, has min(3, number of books) prices, is a sub-multiset of the book prices, and no book price left out is below its last |
| `StreamApiTest.Exercise5AnySort` | src/test/java/space/gavinklfong/demo/streamapi/MyStreamApiTest.java:102-103 | exercise5 is the first three of any ascending arrangement of the book prices |
| `StreamApiTest.Exercise6` | src/test/java/space/gavinklfong/demo/streamapi/MyStreamApiTest.java:109-113 | exercise6 has min(3, number of orders) orders, newest first, a sub-multiset of the input, and no order left out is more recent than its last |
| `StreamApiTest.Exercise6TiesInInputOrder` | src/test/java/space/gavinklfong/demo/streamapi/MyStreamApiTest.java:111-112 | of the orders of any one date, those returned are a prefix of them in input order |
| `StreamApiTest.Exercise7` | src/test/java/space/gavinklfong/demo/streamapi/MyStreamApiTest.java:117-123 | exercise7 has no duplicates and lists a product iff some order dated 2021-03-15 contains it |
| `StreamApiTest.Exercise7FirstOccurrenceOrder` | src/test/java/space/gavinklfong/demo/streamapi/MyStreamApiTest.java:120-121 | exercise7 lists the products in first-occurrence order over that day's orders' products |
| `StreamApiTest.Exercise7IgnoresOtherDays` | src/test/java/space/gavinklfong/demo/streamapi/MyStreamApiTest.java:119 | an order placed on any other day contributes nothing, wherever it stands |
| `StreamApiScenarios.Exercise1Example` | src/test/java/space/gavinklfong/demo/streamapi/MyStreamApiTest.java:40-41 | from a book at 120, a book at 80 and a toy at 150, only the book at 120 is returned |
| `StreamApiScenarios.OnlyBooks` | src/test/java/space/gavinklfong/demo/streamapi/MyStreamApiTest.java:100 | the category filter keeps a list whose categories are all "Books" unchanged |
| `StreamApiScenarios.Exercise5Example` | src/test/java/space/gavinklfong/demo/streamapi/MyStreamApiTest.java:99-104 | five books priced 50, 30, 90, 10, 70 give 10, 30, 50 |
| `StreamApiScenarios.Exercise4Example` | src/test/java/space/gavinklfong/demo/streamapi/MyStreamApiTest.java:87-93 | of tier-2 orders dated 2021-01-15, 2021-02-20, 2021-03-10 and 2021-04-15, only the middle two contribute |

## Left out

- Spring wiring, the `@Autowired` repositories and logging: `findAll()` is modelled as the input sequence.
- exercise2: it compares a `Product` with the string "Baby" through `Product.equals`, which is not part of this model, so its result cannot be stated.
- exercise3: the 10% discount is a `double` multiplication by 0.90. Floating-point rounding is not modelled.
- exercises 8 to 15a: their test bodies are empty, so there is no behaviour to model.
- Product equality: `distinct()` uses `Product.equals`, which is not part of this model; the model uses structural equality of (id, name, category, price).
- Floating point in general: prices are exact reals. `Double` NaN and -0.0 are not modelled.
- Null fields: a null category, tier, customer or date would throw `NullPointerException` in the source. The model's fields are always present.
- Unicode case folding: `equalsIgnoreCase` is modelled for ASCII letters only.
- Date validity: `Date` is any (year, month, day) triple ordered lexicographically. For real calendar dates this is the chronological order of `LocalDate`.
- `limit` with a negative size: every pipeline passes 3, so `Limit` takes a `nat`.
- Sorting algorithm: `sorted` is modelled as a stable insertion sort. Its stability is the documented `Stream.sorted` guarantee for ordered streams, not something the source shows. For prices, `SortedAscUnique` makes the result independent of the algorithm.
- Laziness and evaluation: the model gives the list each pipeline would produce. It ignores whether a terminal operation is present (exercise6 has none) and that the test methods discard their results.
