/**
 * Product records as the catalogue query sees them, and the keys it can sort
 * them by. A product has a `name` and an `author`; its other columns (price,
 * rating, ...) are a map from column name to value. The `Product` model
 * itself (products/models.py) is not part of this model.
 */
module Fields {
  import opened Strings

  /** The value of one column: SQL NULL, a number or text. */
  datatype FieldValue = Null | Num(n: int) | Text(s: string)

  datatype Product = Product(name: string, author: string, attrs: map<string, FieldValue>)

  /** The raw value of column `f` of `p`; a column the product does not carry reads as NULL. */
  function Field(p: Product, f: string): FieldValue
  {
    if f == "name" then Text(p.name)
    else if f == "author" then Text(p.author)
    else if f in p.attrs then p.attrs[f]
    else Null
  }

  /**
   * What `order_by` sorts on: the annotated `lower_name` (the lower-cased
   * name) or a raw column.
   */
  datatype SortKey = LowerName | Column(field: string)

  function KeyValue(p: Product, k: SortKey): FieldValue
  {
    match k
    case LowerName => Text(Lower(p.name))
    case Column(f) => Field(p, f)
  }

  /**
   * Ascending order of column values: NULL first, then numbers by size, then
   * text lexicographically. A real column holds values of one kind only.
   */
  predicate ValueLe(a: FieldValue, b: FieldValue)
  {
    match (a, b)
    case (Null, _) => true
    case (Num(x), Num(y)) => x <= y
    case (Num(_), Text(_)) => true
    case (Text(x), Text(y)) => StrLe(x, y)
    case _ => false
  }

  lemma ValueLeReflexive(a: FieldValue)
    ensures ValueLe(a, a)
  {
    if a.Text? {
      StrLeReflexive(a.s);
    }
  }

  lemma ValueLeTotal(a: FieldValue, b: FieldValue)
    ensures ValueLe(a, b) || ValueLe(b, a)
  {
    if a.Text? && b.Text? {
      StrLeTotal(a.s, b.s);
    }
  }

  lemma ValueLeTransitive(a: FieldValue, b: FieldValue, c: FieldValue)
    requires ValueLe(a, b) && ValueLe(b, c)
    ensures ValueLe(a, c)
  {
    if a.Text? && b.Text? && c.Text? {
      StrLeTransitive(a.s, b.s, c.s);
    }
  }

  lemma ValueLeAntisymmetric(a: FieldValue, b: FieldValue)
    requires ValueLe(a, b) && ValueLe(b, a)
    ensures a == b
  {
    if a.Text? && b.Text? {
      StrLeAntisymmetric(a.s, b.s);
    }
  }
}
