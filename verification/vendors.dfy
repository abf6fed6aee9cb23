/** The per-vendor tables the tagging page builds from the catalog
    (`newVendors`, `loadedVendors`): each vendor's products in catalog
    order, and how many of them already carry each genre and each decade. */
module Vendors {
  import opened Wrappers
  import opened Records
  import opened Seqs
  import opened Catalog

  datatype VendorData = VendorData(
    products: seq<Product>,
    existingGenres: Dict<nat>,
    existingDecades: Dict<nat>)

  function GenreOf(p: Product): Option<string> { p.existingGenre }
  function DecadeOf(p: Product): Option<string> { p.existingDecade }

  function VendorIs(v: string): Product -> bool {
    (p: Product) => p.vendor == v
  }

  /** The products whose `field` is truthy. */
  function HasField(field: Product -> Option<string>): Product -> bool {
    (p: Product) => Truthy(field(p))
  }

  /** The products whose `field` is the value `k`. */
  function FieldIs(field: Product -> Option<string>, k: string): Product -> bool {
    (p: Product) => field(p) == Some(k)
  }

  /** The frequency table of `field` over `ps`, built the way the loop
      builds it: `counts[v] = (counts[v] || 0) + 1` for each truthy value. */
  function Counts(ps: seq<Product>, field: Product -> Option<string>): (d: Dict<nat>)
    ensures Valid(d)
  {
    if ps == [] then Empty()
    else
      var d := Counts(ps[..|ps| - 1], field);
      var f := field(ps[|ps| - 1]);
      if Truthy(f) then Increment(d, f.value) else d
  }

  /** The counts add up to the number of products with a truthy value. */
  lemma {:induction false} CountsSum(ps: seq<Product>, field: Product -> Option<string>)
    ensures Sum(Counts(ps, field)) == Count(ps, HasField(field))
  {
    if ps != [] {
      var init := ps[..|ps| - 1];
      CountsSum(init, field);
      assert ps == init + [ps[|ps| - 1]];
      FilterSnoc(init, ps[|ps| - 1], HasField(field));
      var f := field(ps[|ps| - 1]);
      if Truthy(f) {
        SumIncrement(Counts(init, field), f.value);
      }
    }
  }

  /** A value is a key of the table exactly when some product has it, and
      its count is the number of products that have it. */
  lemma {:induction false} CountsEntry(ps: seq<Product>, field: Product -> Option<string>, k: string)
    requires k != ""
    ensures k in Counts(ps, field).vals <==> exists p :: p in ps && field(p) == Some(k)
    ensures k in Counts(ps, field).vals ==> Counts(ps, field).vals[k] == Count(ps, FieldIs(field, k))
  {
    if ps != [] {
      var init := ps[..|ps| - 1];
      var last := ps[|ps| - 1];
      CountsEntry(init, field, k);
      assert ps == init + [last];
      FilterSnoc(init, last, FieldIs(field, k));
      if k !in Counts(init, field).vals {
        FilterNone(init, FieldIs(field, k));
      }
    }
  }

  /** What a vendor's entry holds after the products `ps` have been read. */
  function Group(ps: seq<Product>, v: string): VendorData {
    var mine := Filter(ps, VendorIs(v));
    VendorData(mine, Counts(mine, GenreOf), Counts(mine, DecadeOf))
  }

  /** The vendors of `ps` in order of first appearance. */
  function VendorOrder(ps: seq<Product>): seq<string>
  {
    if ps == [] then []
    else
      var r := VendorOrder(ps[..|ps| - 1]);
      var v := ps[|ps| - 1].vendor;
      if v in r then r else r + [v]
  }

  /** Each vendor is listed once, and exactly the vendors of `ps` are. */
  lemma {:induction false} VendorOrderFacts(ps: seq<Product>)
    ensures Distinct(VendorOrder(ps))
    ensures forall v :: v in VendorOrder(ps) <==> exists p :: p in ps && p.vendor == v
  {
    if ps != [] {
      VendorOrderFacts(ps[..|ps| - 1]);
      assert ps == ps[..|ps| - 1] + [ps[|ps| - 1]];
      assert forall p :: p in ps <==> p in ps[..|ps| - 1] || p == ps[|ps| - 1];
    }
  }

  /** The vendor table after reading `ps`. */
  function Aggregated(ps: seq<Product>): Dict<VendorData>
  {
    var order := VendorOrder(ps);
    Dict(order, map v | v in order :: Group(ps, v))
  }

  /** The entry of `p`'s vendor once `p` is read into entry `g`. */
  function AddProduct(g: VendorData, p: Product): VendorData {
    VendorData(g.products + [p],
      if Truthy(p.existingGenre) then Increment(g.existingGenres, p.existingGenre.value) else g.existingGenres,
      if Truthy(p.existingDecade) then Increment(g.existingDecades, p.existingDecade.value) else g.existingDecades)
  }

  const NoData := VendorData([], Empty(), Empty())

  lemma GroupSnocSame(ps: seq<Product>, p: Product)
    ensures Group(ps + [p], p.vendor) == AddProduct(Group(ps, p.vendor), p)
  {
    var v := p.vendor;
    var mine := Filter(ps, VendorIs(v));
    FilterSnoc(ps, p, VendorIs(v));
    assert (mine + [p])[..|mine + [p]| - 1] == mine;
  }

  lemma GroupSnocOther(ps: seq<Product>, p: Product, w: string)
    requires w != p.vendor
    ensures Group(ps + [p], w) == Group(ps, w)
  {
    FilterSnoc(ps, p, VendorIs(w));
  }

  lemma GroupAbsent(ps: seq<Product>, v: string)
    requires v !in VendorOrder(ps)
    ensures Group(ps, v) == NoData
  {
    VendorOrderFacts(ps);
    FilterNone(ps, VendorIs(v));
  }

  /** Reading one more product adds it to its vendor's entry only. */
  lemma AggregatedSnoc(ps: seq<Product>, p: Product)
    ensures var d := Aggregated(ps);
            Aggregated(ps + [p])
              == Put(d, p.vendor, AddProduct(if p.vendor in d.vals then d.vals[p.vendor] else NoData, p))
  {
    var qs := ps + [p];
    assert qs[..|qs| - 1] == ps;
    var d := Aggregated(ps);
    var v := p.vendor;
    var g := if v in d.vals then d.vals[v] else NoData;
    if v !in d.vals {
      GroupAbsent(ps, v);
    }
    assert g == Group(ps, v);
    GroupSnocSame(ps, p);
    var r := Put(d, v, AddProduct(g, p));
    var a := Aggregated(qs);
    assert a.keys == r.keys;
    forall w | w in a.vals
      ensures w in r.vals && a.vals[w] == r.vals[w]
    {
      if w != v {
        GroupSnocOther(ps, p, w);
      }
    }
    assert a.vals == r.vals;
  }

  lemma AggregatedPrefix(ps: seq<Product>, i: nat)
    requires i < |ps|
    ensures var d := Aggregated(ps[..i]);
            var p := ps[i];
            Aggregated(ps[..i + 1])
              == Put(d, p.vendor, AddProduct(if p.vendor in d.vals then d.vals[p.vendor] else NoData, p))
  {
    assert ps[..i + 1] == ps[..i] + [ps[i]];
    AggregatedSnoc(ps[..i], ps[i]);
  }

  /** The aggregation loop of the catalog load. */
  method Aggregate(products: seq<Product>) returns (vendors: Dict<VendorData>)
    ensures vendors == Aggregated(products)
  {
    vendors := Dict([], map[]);
    assert products[..0] == [];
    assert Aggregated([]) == Dict([], map[]);
    for i := 0 to |products|
      invariant vendors == Aggregated(products[..i])
    {
      var p := products[i];
      AggregatedPrefix(products, i);
      // a new vendor gets an empty entry; then the product is pushed and
      // its genre and decade counted
      var g := if p.vendor in vendors.vals then vendors.vals[p.vendor] else NoData;
      vendors := Put(vendors, p.vendor, AddProduct(g, p));
    }
    assert products[..|products|] == products;
  }

  /** Every product lies in the group of its exact vendor string, each group
      holds only that vendor's products in catalog order, no group is empty,
      and a group's genre (decade) counts add up to the number of its
      products with a genre (decade). */
  lemma AggregatedGroups(ps: seq<Product>, v: string)
    ensures Valid(Aggregated(ps))
    ensures v in Aggregated(ps).vals <==> exists p :: p in ps && p.vendor == v
    ensures v in Aggregated(ps).vals ==>
              var g := Aggregated(ps).vals[v];
              && g.products == Filter(ps, VendorIs(v))
              && g.products != []
              && Sum(g.existingGenres) == Count(g.products, HasField(GenreOf))
              && Sum(g.existingDecades) == Count(g.products, HasField(DecadeOf))
  {
    VendorOrderFacts(ps);
    if v in Aggregated(ps).vals {
      var g := Aggregated(ps).vals[v];
      var p :| p in ps && p.vendor == v;
      FilterIn(ps, VendorIs(v), p);
      assert p in g.products;
      CountsSum(g.products, GenreOf);
      CountsSum(g.products, DecadeOf);
    }
  }
}
