/** The entity records the exercises query: Product, Customer and Order, as
    read-only values, and the calendar date (java.time.LocalDate) the orders
    carry. */
module Models {

  /** A calendar date without time; compared chronologically, which for valid
      dates is the lexicographic order on (year, month, day). */
  datatype Date = Date(year: int, month: int, day: int)
  {
    /** LocalDate.isBefore: this date is strictly earlier than other. */
    predicate IsBefore(other: Date)
    {
      || year < other.year
      || (year == other.year && month < other.month)
      || (year == other.year && month == other.month && day < other.day)
    }

    /** LocalDate.isAfter: this date is strictly later than other. */
    predicate IsAfter(other: Date)
    {
      other.IsBefore(this)
    }

    /** LocalDate.isEqual: the same day. */
    predicate IsEqual(other: Date)
    {
      this == other
    }
  }

  /** Product: category is a free-form label, price a Double. */
  datatype Product = Product(id: int, name: string, category: string, price: real)

  /** Customer: tier is a small integer classification. */
  datatype Customer = Customer(id: int, name: string, tier: int)

  /** Order: placed by one customer on one date, for a sequence of products. */
  datatype Order = Order(id: int, orderDate: Date, customer: Customer, products: seq<Product>)

  /** Order::getProducts, as a function value for flatMap. */
  function ProductsOf(o: Order): seq<Product>
  {
    o.products
  }
}
