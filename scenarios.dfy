/** Lemmas stating what exercises 1, 4 and 5 return on small concrete
    inputs. */
module StreamApiScenarios {
  import opened Ascii
  import opened Models
  import opened Streams
  import opened Sorting
  import opened StreamApiTest

  function Book(id: int, price: real): Product
  {
    Product(id, "book", "Books", price)
  }

  /** Only the book priced over 100 is selected; a toy over 100 and a book
      at 80 are not. */
  lemma Exercise1Example()
    ensures var p1 := Book(1, 120.0);
            var p2 := Book(2, 80.0);
            var p3 := Product(3, "kite", "Toys", 150.0);
            Exercise1([p1, p2, p3]) == [p1]
  {
    var p1 := Book(1, 120.0);
    var p2 := Book(2, 80.0);
    var p3 := Product(3, "kite", "Toys", 150.0);
    assert AllBooks(p1) && AllBooks(p2);
    assert !AllBooks(p3) by {
      assert ToLower(p3.category[0]) != ToLower("Books"[0]);
    }
    assert [p1, p2, p3][1..] == [p2, p3] && [p2, p3][1..] == [p3] && [p1, p2][1..] == [p2];
    assert Filter([p3], AllBooks) == [];
    assert Filter([p2, p3], AllBooks) == [p2];
    assert Filter([p1, p2, p3], AllBooks) == [p1, p2];
    assert Filter([p2], Greater) == [];
    assert Filter([p1, p2], Greater) == [p1];
  }

  lemma OnlyBooks(ps: seq<Product>)
    requires forall i :: 0 <= i < |ps| ==> ps[i].category == "Books"
    ensures Filter(ps, AllBooks) == ps
  {
    EqualsIgnoreCaseReflexive("Books");
    FilterAllPass(ps, AllBooks);
  }

  lemma ExamplePricesPermuted()
    ensures multiset([10.0, 30.0, 50.0, 70.0, 90.0]) == multiset([50.0, 30.0, 90.0, 10.0, 70.0])
  {
  }

  lemma ExampleBookPrices(ps: seq<Product>)
    requires |ps| == 5 && forall i :: 0 <= i < 5 ==> ps[i].category == "Books"
    requires ps[0].price == 50.0 && ps[1].price == 30.0 && ps[2].price == 90.0
    requires ps[3].price == 10.0 && ps[4].price == 70.0
    ensures BookPrices(ps) == [50.0, 30.0, 90.0, 10.0, 70.0]
  {
    OnlyBooks(ps);
    assert BookPrices(ps) == Map(ps, PriceOf);
  }

  lemma ExampleSorted(ps: seq<Product>)
    requires BookPrices(ps) == [50.0, 30.0, 90.0, 10.0, 70.0]
    ensures Exercise5(ps) == Limit([10.0, 30.0, 50.0, 70.0, 90.0], 3)
  {
    ExamplePricesPermuted();
    Exercise5AnySort(ps, [10.0, 30.0, 50.0, 70.0, 90.0]);
  }

  lemma ExampleLimit()
    ensures Limit([10.0, 30.0, 50.0, 70.0, 90.0], 3) == [10.0, 30.0, 50.0]
  {
  }

  /** Any five books priced 50, 30, 90, 10 and 70, in that order, give the
      prices 10, 30, 50. */
  lemma Exercise5Example(ps: seq<Product>)
    requires |ps| == 5 && forall i :: 0 <= i < 5 ==> ps[i].category == "Books"
    requires ps[0].price == 50.0 && ps[1].price == 30.0 && ps[2].price == 90.0
    requires ps[3].price == 10.0 && ps[4].price == 70.0
    ensures Exercise5(ps) == [10.0, 30.0, 50.0]
  {
    ExampleBookPrices(ps);
    ExampleSorted(ps);
    ExampleLimit();
  }

  lemma ExampleWindowMembers(o2: Order, o3: Order)
    requires InTier2Window(o2) && InTier2Window(o3)
    ensures forall p :: p in Exercise4([o2, o3]) <==> p in o2.products || p in o3.products
  {
    forall p ensures p in Exercise4([o2, o3]) <==> p in o2.products || p in o3.products {
      assert o2 in [o2, o3] && o3 in [o2, o3];
      assert forall o :: o in [o2, o3] ==> o == o2 || o == o3;
    }
  }

  /** Four tier-2 orders dated 2021-01-15, 2021-02-20, 2021-03-10 and
      2021-04-15: only the two inside the window contribute products. */
  lemma Exercise4Example(o1: Order, o2: Order, o3: Order, o4: Order)
    requires o1.customer.tier == 2 && o1.orderDate == Date(2021, 1, 15)
    requires o2.customer.tier == 2 && o2.orderDate == Date(2021, 2, 20)
    requires o3.customer.tier == 2 && o3.orderDate == Date(2021, 3, 10)
    requires o4.customer.tier == 2 && o4.orderDate == Date(2021, 4, 15)
    ensures Exercise4([o1, o2, o3, o4]) == Exercise4([o2, o3])
    ensures forall p :: p in Exercise4([o1, o2, o3, o4]) <==> p in o2.products || p in o3.products
  {
    var none: seq<Order> := [];
    assert none + [o1] + [o2, o3, o4] == [o1, o2, o3, o4];
    assert none + [o2, o3, o4] == [o2, o3, o4];
    assert [o2, o3] + [o4] + none == [o2, o3, o4];
    assert [o2, o3] + none == [o2, o3];
    Exercise4IgnoresOthers(none, o1, [o2, o3, o4]);
    Exercise4IgnoresOthers([o2, o3], o4, none);
    ExampleWindowMembers(o2, o3);
  }
}
