/** The stream pipelines of the exercise test class, each as the value it
    computes from the collection that the repository's findAll() returns
    (passed in as a sequence). */
module StreamApiTest {
  import opened Ascii
  import opened Models
  import opened Streams
  import opened Sorting

  // ---------------------------------------------------------------------
  // exercise1, exercise1a, exercise1b: books priced over 100
  // ---------------------------------------------------------------------

  /** p -> p.getCategory().equalsIgnoreCase("Books") (the allBooks predicate). */
  predicate AllBooks(p: Product)
  {
    EqualsIgnoreCase(p.category, "Books")
  }

  /** p -> p.getPrice() > 100 (the greater predicate). */
  predicate Greater(p: Product)
  {
    p.price > 100.0
  }

  /** The BiPredicate categoryFilter of exercise1b. */
  predicate CategoryFilter(p: Product, category: string)
  {
    EqualsIgnoreCase(p.category, category)
  }

  /** product -> categoryFilter.test(product, "Books") && product.getPrice() > 100 */
  predicate BookOver100(p: Product)
  {
    CategoryFilter(p, "Books") && p.price > 100.0
  }

  /** What exercise1 asks for, stated on its own: the category lower-cases
      to "books" and the price exceeds 100. */
  predicate IsExpensiveBook(p: Product)
  {
    LowerString(p.category) == "books" && p.price > 100.0
  }

  /** exercise1: filter by category, then filter by price. The result holds
      exactly the books priced over 100, each as often as in the input, in
      input order. */
  function Exercise1(products: seq<Product>): (r: seq<Product>)
    ensures forall p :: p in r <==> p in products && IsExpensiveBook(p)
    ensures forall p :: multiset(r)[p] == if IsExpensiveBook(p) then multiset(products)[p] else 0
    ensures IsSubseq(r, products)
  {
    FilterFilter(products, AllBooks, Greater);
    FilterCount(products, And(AllBooks, Greater));
    FilterIsSubseq(products, And(AllBooks, Greater));
    BooksIgnoringCaseAll();
    Filter(Filter(products, AllBooks), Greater)
  }

  /** exercise1a: one filter with allBooks.and(greater). */
  function Exercise1a(products: seq<Product>): (r: seq<Product>)
    ensures forall p :: p in r <==> p in products && IsExpensiveBook(p)
  {
    BooksIgnoringCaseAll();
    Filter(products, And(AllBooks, Greater))
  }

  /** exercise1b: one filter with the BiPredicate and the price test. */
  function Exercise1b(products: seq<Product>): (r: seq<Product>)
    ensures forall p :: p in r <==> p in products && IsExpensiveBook(p)
  {
    BooksIgnoringCaseAll();
    Filter(products, BookOver100)
  }

  /** The three formulations of exercise1 return the same list on every
      input. */
  lemma Exercise1Formulations(products: seq<Product>)
    ensures Exercise1(products) == Exercise1a(products)
    ensures Exercise1a(products) == Exercise1b(products)
  {
    FilterFilter(products, AllBooks, Greater);
    FilterExt(products, And(AllBooks, Greater), BookOver100);
  }

  /** A category is "Books" ignoring case exactly when it lower-cases to
      "books". */
  lemma BooksIgnoringCase(p: Product)
    ensures AllBooks(p) <==> LowerString(p.category) == "books"
  {
    EqualsIgnoreCaseIsLowerEquality(p.category, "Books");
    assert LowerString("Books") == "books";
  }

  lemma BooksIgnoringCaseAll()
    ensures forall p :: AllBooks(p) <==> LowerString(p.category) == "books"
  {
    forall p: Product ensures AllBooks(p) <==> LowerString(p.category) == "books" {
      BooksIgnoringCase(p);
    }
  }

  /** Changing only the letter case of a product's category does not change
      whether exercise1 selects it. */
  lemma Exercise1CaseInsensitive(products: seq<Product>, i: nat, c: string)
    requires i < |products| && LowerString(c) == LowerString(products[i].category)
    ensures var recased := products[i].(category := c);
            recased in Exercise1(products[i := recased]) <==> products[i] in Exercise1(products)
  {
    BooksIgnoringCase(products[i]);
    BooksIgnoringCase(products[i].(category := c));
  }

  /** "BOOKS", "books" and "Books" all qualify, alike. */
  lemma BooksSpellings(p: Product)
    ensures AllBooks(p.(category := "BOOKS"))
    ensures AllBooks(p.(category := "books"))
    ensures AllBooks(p.(category := "Books"))
    ensures !AllBooks(p.(category := "Book"))
  {
    assert EqualsIgnoreCase("BOOKS", "Books");
    assert EqualsIgnoreCase("books", "Books");
  }

  // ---------------------------------------------------------------------
  // exercise4: products ordered by tier-2 customers between two dates
  // ---------------------------------------------------------------------

  const StartDate := Date(2021, 2, 1)
  const EndDate := Date(2021, 4, 1)

  /** order -> order.getCustomer().getTier().equals(2) */
  predicate IsTier2(o: Order)
  {
    o.customer.tier == 2
  }

  /** order -> order.getOrderDate().isAfter(startDate) */
  predicate AfterStart(o: Order)
  {
    o.orderDate.IsAfter(StartDate)
  }

  /** order -> order.getOrderDate().isBefore(endDate) */
  predicate BeforeEnd(o: Order)
  {
    o.orderDate.IsBefore(EndDate)
  }

  /** The orders exercise4 reads products from, stated on its own: a tier-2
      customer, and a date strictly between 2021-02-01 and 2021-04-01. */
  predicate InTier2Window(o: Order)
  {
    && o.customer.tier == 2
    && Date(2021, 2, 1).IsBefore(o.orderDate)
    && o.orderDate.IsBefore(Date(2021, 4, 1))
  }

  /** The three filters of exercise4, before flatMap. */
  function Exercise4Orders(orders: seq<Order>): (r: seq<Order>)
    ensures r == Filter(orders, InTier2Window)
  {
    FilterFilter(orders, IsTier2, AfterStart);
    FilterFilter(orders, And(IsTier2, AfterStart), BeforeEnd);
    FilterExt(orders, And(And(IsTier2, AfterStart), BeforeEnd), InTier2Window);
    Filter(Filter(Filter(orders, IsTier2), AfterStart), BeforeEnd)
  }

  /** exercise4: the distinct products of the selected orders. No product is
      listed twice, and a product is listed exactly when some tier-2 order
      dated strictly inside the window contains it. */
  function Exercise4(orders: seq<Order>): (r: seq<Product>)
    ensures NoDup(r)
    ensures forall p :: p in r <==> exists o :: o in orders && InTier2Window(o) && p in o.products
  {
    Distinct(FlatMap(Exercise4Orders(orders), ProductsOf))
  }

  /** The products come in the order of their first occurrence among the
      selected orders' products, walked in findAll order. */
  lemma Exercise4FirstOccurrenceOrder(orders: seq<Order>)
    ensures Exercise4(orders) == FirstOccurrences(FlatMap(Filter(orders, InTier2Window), ProductsOf))
  {
    DistinctIsFirstOccurrences(FlatMap(Filter(orders, InTier2Window), ProductsOf));
  }

  /** An order outside the tier-2 window contributes nothing, wherever it
      stands in the input. */
  lemma Exercise4IgnoresOthers(before: seq<Order>, o: Order, after: seq<Order>)
    requires !InTier2Window(o)
    ensures Exercise4(before + [o] + after) == Exercise4(before + after)
  {
    var keep := Filter(before, InTier2Window) + Filter(after, InTier2Window);
    assert Filter(before + [o] + after, InTier2Window) == keep by {
      FilterAppend(before + [o], after, InTier2Window);
      FilterAppend(before, [o], InTier2Window);
      assert Filter([o], InTier2Window) == [];
      assert Filter(before, InTier2Window) + [] == Filter(before, InTier2Window);
    }
    assert Filter(before + after, InTier2Window) == keep by {
      FilterAppend(before, after, InTier2Window);
    }
    assert Exercise4Orders(before + [o] + after) == Exercise4Orders(before + after);
  }

  /** The window's bounds are exclusive: orders dated exactly 2021-02-01 or
      2021-04-01 contribute nothing. */
  lemma Exercise4BoundsExclusive(before: seq<Order>, o: Order, after: seq<Order>)
    requires o.orderDate == Date(2021, 2, 1) || o.orderDate == Date(2021, 4, 1)
    ensures Exercise4(before + [o] + after) == Exercise4(before + after)
  {
    Exercise4IgnoresOthers(before, o, after);
  }

  // ---------------------------------------------------------------------
  // exercise5: the three cheapest books
  // ---------------------------------------------------------------------

  /** Product::getPrice, as a function value for map. */
  function PriceOf(p: Product): real
  {
    p.price
  }

  /** filter(category equalsIgnoreCase "Books").map(Product::getPrice): the
      prices of the books, in findAll order. */
  function BookPrices(products: seq<Product>): (r: seq<real>)
    ensures |r| == |Filter(products, AllBooks)|
    ensures forall i :: 0 <= i < |r| ==> r[i] == Filter(products, AllBooks)[i].price
  {
    Map(Filter(products, AllBooks), PriceOf)
  }

  /** A price is among the book prices exactly when some book in the input
      carries it. */
  lemma BookPricesMembers(products: seq<Product>)
    ensures forall x :: x in BookPrices(products) <==> exists p :: p in products && AllBooks(p) && p.price == x
  {
    var books := Filter(products, AllBooks);
    var r := BookPrices(products);
    forall x | x in r ensures exists p :: p in books && p.price == x {
      var i :| 0 <= i < |r| && r[i] == x;
      assert books[i] in books;
    }
    forall p | p in books ensures p.price in r {
      var i :| 0 <= i < |books| && books[i] == p;
      assert r[i] == p.price;
    }
  }

  /** exercise5: the book prices sorted ascending and cut to three. The
      result is ascending, holds min(3, number of books) prices taken from
      the book prices, and no book price left out is below the last one
      returned. */
  function Exercise5(products: seq<Product>): (r: seq<real>)
    ensures |r| == Min(3, |Filter(products, AllBooks)|)
    ensures SortedAsc(r)
    ensures multiset(r) <= multiset(BookPrices(products))
    ensures forall x :: x in multiset(BookPrices(products)) - multiset(r) ==> 0 < |r| && r[|r| - 1] <= x
  {
    var prices := BookPrices(products);
    var sorted := SortAsc(prices);
    assert |sorted| == |prices| by {
      assert |multiset(sorted)| == |sorted| && |multiset(prices)| == |prices|;
    }
    LimitSortedAsc(sorted, 3);
    Limit(sorted, 3)
  }

  /** The result does not depend on how the prices are sorted: it is the
      first three of any ascending arrangement of the book prices. */
  lemma Exercise5AnySort(products: seq<Product>, t: seq<real>)
    requires SortedAsc(t) && multiset(t) == multiset(BookPrices(products))
    ensures Exercise5(products) == Limit(t, 3)
  {
    SortedAscUnique(SortAsc(BookPrices(products)), t);
  }

  // ---------------------------------------------------------------------
  // exercise6: the three most recent orders
  // ---------------------------------------------------------------------

  /** exercise6: the orders sorted most recent first and cut to three. The
      result holds min(3, number of orders) of the orders, newest first, and
      no order left out is more recent than the last one returned. */
  function Exercise6(orders: seq<Order>): (r: seq<Order>)
    ensures |r| == Min(3, |orders|)
    ensures NewestFirst(r)
    ensures multiset(r) <= multiset(orders)
    ensures forall o :: o in multiset(orders) - multiset(r) ==> 0 < |r| && !o.orderDate.IsAfter(r[|r| - 1].orderDate)
  {
    var sorted := SortNewestFirst(orders);
    assert |sorted| == |orders| by {
      assert |multiset(sorted)| == |sorted| && |multiset(orders)| == |orders|;
    }
    LimitNewestFirst(sorted, 3);
    Limit(sorted, 3)
  }

  /** Ties keep findAll order: of the orders placed on any one date, those
      returned are the earliest ones in the input, in input order. */
  lemma Exercise6TiesInInputOrder(orders: seq<Order>, d: Date, onDay: Order -> bool)
    requires forall x :: onDay(x) <==> x.orderDate == d
    ensures Filter(Exercise6(orders), onDay) <= Filter(orders, onDay)
  {
    var sorted := SortNewestFirst(orders);
    var k := Min(3, |sorted|);
    assert sorted == sorted[..k] + sorted[k..];
    FilterAppend(sorted[..k], sorted[k..], onDay);
    SortNewestFirstStable(orders, d, onDay);
  }

  // ---------------------------------------------------------------------
  // exercise7: products ordered on 2021-03-15
  // ---------------------------------------------------------------------

  const OrderDay := Date(2021, 3, 15)

  /** order -> order.getOrderDate().isEqual(LocalDate.of(2021, 3, 15)) */
  predicate PlacedOnOrderDay(o: Order)
  {
    o.orderDate.IsEqual(OrderDay)
  }

  /** exercise7: the distinct products of the orders placed on 2021-03-15.
      No product is listed twice, and a product is listed exactly when some
      order of that day contains it. */
  function Exercise7(orders: seq<Order>): (r: seq<Product>)
    ensures NoDup(r)
    ensures forall p :: p in r <==> exists o :: o in orders && o.orderDate == Date(2021, 3, 15) && p in o.products
  {
    Distinct(FlatMap(Filter(orders, PlacedOnOrderDay), ProductsOf))
  }

  /** The products come in the order of their first occurrence among the
      products of that day's orders, walked in findAll order. */
  lemma Exercise7FirstOccurrenceOrder(orders: seq<Order>)
    ensures Exercise7(orders) == FirstOccurrences(FlatMap(Filter(orders, PlacedOnOrderDay), ProductsOf))
  {
    DistinctIsFirstOccurrences(FlatMap(Filter(orders, PlacedOnOrderDay), ProductsOf));
  }

  /** An order placed on any other day contributes nothing, wherever it
      stands in the input. */
  lemma Exercise7IgnoresOtherDays(before: seq<Order>, o: Order, after: seq<Order>)
    requires o.orderDate != Date(2021, 3, 15)
    ensures Exercise7(before + [o] + after) == Exercise7(before + after)
  {
    FilterAppend(before + [o], after, PlacedOnOrderDay);
    FilterAppend(before, [o], PlacedOnOrderDay);
    FilterAppend(before, after, PlacedOnOrderDay);
    assert Filter([o], PlacedOnOrderDay) == [];
    assert Filter(before + [o] + after, PlacedOnOrderDay) == Filter(before + after, PlacedOnOrderDay);
  }
}
