/** The seller-facing product controllers. Each one checks that the caller's role
    is SELLER; update and delete also check that the caller owns the product.
    Every thrown error (a request body the schema refuses, a query the database
    client rejects) is caught and answered with 400. The caller's `userId` and
    `role` come from the verified access token. */
module SellerControllers {
  import opened Values
  import opened Catalog
  import CreateProductDto
  import UpdateProductDto

  const SellerRole := "SELLER"

  /** A product as the response schema lets it out: the schema names neither
      the category, nor the seller, nor the status, so those are stripped. */
  datatype ProductView = ProductView(
    id: int, name: string, description: string, price: real, images: seq<string>, createdAt: int)

  function View(id: int, p: Product): ProductView
  {
    ProductView(id, p.name, p.description, p.price, p.images, p.createdAt)
  }

  datatype Body =
    | Forbidden                   // the role check
    | NotAuthorized               // the ownership check
    | Failed                      // a caught error, with its message
    | One(view: ProductView)
    | Many(views: seq<ProductView>)
    | NoContent

  datatype Reply = Reply(status: int, body: Body)

  /** `!role || role !== 'SELLER'` fails exactly when the role is not SELLER. */
  predicate IsSeller(role: Option<string>)
  {
    role == Some(SellerRole)
  }

  /** `createProduct`. The body is parsed before the role is checked, so a
      malformed body is answered with 400 even for a caller who is not a seller.
      The new product gets the next id, the caller as seller, status PENDING and
      the creation time `now`. */
  method CreateProduct(table: ProductTable, role: Option<string>, userId: int, body: CreateProductDto.RawProduct, now: int)
    returns (reply: Reply)
    requires table.Valid()
    modifies table
    ensures table.Valid()
    ensures CreateProductDto.Parse(body).None? ==>
      reply == Reply(400, Failed) && unchanged(table)
    ensures CreateProductDto.Parse(body).Some? && !IsSeller(role) ==>
      reply == Reply(403, Forbidden) && unchanged(table)
    ensures CreateProductDto.Parse(body).Some? && IsSeller(role) ==>
      var dto := CreateProductDto.Parse(body).value;
      var id := old(table.nextId);
      var p := Product(dto.name, dto.description, dto.price, dto.images, dto.category, userId, Pending, now);
      && id !in old(table.products)
      && table.products == old(table.products)[id := p]
      && table.nextId == id + 1
      && reply == Reply(201, One(View(id, p)))
  {
    var dto := CreateProductDto.Parse(body);
    if dto.None? {
      return Reply(400, Failed);
    }
    if !IsSeller(role) {
      return Reply(403, Forbidden);
    }
    var d := dto.value;
    var p := Product(d.name, d.description, d.price, d.images, d.category, userId, Pending, now);
    var id := table.nextId;
    table.products := table.products[id := p];
    table.nextId := id + 1;
    reply := Reply(201, One(View(id, p)));
  }

  /** The product after an update: the fields the update schema names, and
      nothing else. */
  function Updated(p: Product, dto: UpdateProductDto.UpdateProduct): (r: Product)
    ensures r.name == dto.name && r.description == dto.description && r.price == dto.price && r.images == dto.images
    ensures r.category == p.category && r.sellerId == p.sellerId && r.status == p.status && r.createdAt == p.createdAt
  {
    p.(name := dto.name, description := dto.description, price := dto.price, images := dto.images)
  }

  /** Whether `userId` owns a stored product with this id. */
  predicate Owns(products: map<int, Product>, id: int, userId: int)
  {
    id in products && products[id].sellerId == userId
  }

  /** `updateProduct`. Order of checks: role (403), body (400), a NaN id that the
      database client rejects (400), missing or foreign product (403). */
  method UpdateProduct(table: ProductTable, role: Option<string>, userId: int, productId: ParsedInt,
                       body: UpdateProductDto.RawUpdate)
    returns (reply: Reply)
    requires table.Valid()
    modifies table
    ensures table.Valid() && table.nextId == old(table.nextId)
    ensures !IsSeller(role) ==> reply == Reply(403, Forbidden) && unchanged(table)
    ensures IsSeller(role) && UpdateProductDto.Parse(body).None? ==> reply == Reply(400, Failed) && unchanged(table)
    ensures IsSeller(role) && UpdateProductDto.Parse(body).Some? && productId.NaN? ==>
      reply == Reply(400, Failed) && unchanged(table)
    ensures IsSeller(role) && UpdateProductDto.Parse(body).Some? && productId.Int? && !Owns(old(table.products), productId.n, userId) ==>
      reply == Reply(403, NotAuthorized) && unchanged(table)
    ensures IsSeller(role) && UpdateProductDto.Parse(body).Some? && productId.Int? && Owns(old(table.products), productId.n, userId) ==>
      var id := productId.n;
      var p := Updated(old(table.products)[id], UpdateProductDto.Parse(body).value);
      table.products == old(table.products)[id := p] && reply == Reply(200, One(View(id, p)))
  {
    if !IsSeller(role) {
      return Reply(403, Forbidden);
    }
    var dto := UpdateProductDto.Parse(body);
    if dto.None? {
      return Reply(400, Failed);
    }
    if productId.NaN? {
      // findUnique({ where: { id: NaN } }) fails validation and throws
      return Reply(400, Failed);
    }
    var id := productId.n;
    if !Owns(table.products, id, userId) {
      return Reply(403, NotAuthorized);
    }
    var p := Updated(table.products[id], dto.value);
    table.products := table.products[id := p];
    reply := Reply(200, One(View(id, p)));
  }

  /** `deleteProduct`: the same role and ownership checks, then exactly that
      product is removed. */
  method DeleteProduct(table: ProductTable, role: Option<string>, userId: int, productId: ParsedInt)
    returns (reply: Reply)
    requires table.Valid()
    modifies table
    ensures table.Valid() && table.nextId == old(table.nextId)
    ensures !IsSeller(role) ==> reply == Reply(403, Forbidden) && unchanged(table)
    ensures IsSeller(role) && productId.NaN? ==> reply == Reply(400, Failed) && unchanged(table)
    ensures IsSeller(role) && productId.Int? && !Owns(old(table.products), productId.n, userId) ==>
      reply == Reply(403, NotAuthorized) && unchanged(table)
    ensures IsSeller(role) && productId.Int? && Owns(old(table.products), productId.n, userId) ==>
      table.products == old(table.products) - {productId.n} && reply == Reply(204, NoContent)
  {
    if !IsSeller(role) {
      return Reply(403, Forbidden);
    }
    if productId.NaN? {
      return Reply(400, Failed);
    }
    var id := productId.n;
    if !Owns(table.products, id, userId) {
      return Reply(403, NotAuthorized);
    }
    table.products := table.products - {id};
    reply := Reply(204, NoContent);
  }

  /** Newest first: `orderBy: { createdAt: 'desc' }`. */
  predicate NewestFirst(s: seq<ProductView>)
  {
    forall i, j :: 0 <= i < j < |s| ==> s[i].createdAt >= s[j].createdAt
  }

  predicate DistinctIds(s: seq<ProductView>)
  {
    forall i, j :: 0 <= i < j < |s| ==> s[i].id != s[j].id
  }

  /** `v` placed before the first entry that is older than it. */
  function Insert(v: ProductView, s: seq<ProductView>): (r: seq<ProductView>)
    ensures multiset(r) == multiset(s) + multiset{v}
    ensures |r| == |s| + 1
  {
    if s == [] then [v]
    else if v.createdAt > s[0].createdAt then [v] + s
    else
      assert s == [s[0]] + s[1..];
      [s[0]] + Insert(v, s[1..])
  }

  /** Insertion sort by `createdAt`, newest first; entries of the same age come
      out in the reverse of their input order. */
  function SortNewestFirst(s: seq<ProductView>): (r: seq<ProductView>)
    ensures multiset(r) == multiset(s)
    ensures |r| == |s|
  {
    if s == [] then []
    else
      assert s == [s[0]] + s[1..];
      Insert(s[0], SortNewestFirst(s[1..]))
  }

  /** Dropping the first entry keeps a list newest first and its ids distinct. */
  lemma TailKeepsOrder(s: seq<ProductView>)
    requires s != []
    ensures NewestFirst(s) ==> NewestFirst(s[1..])
    ensures DistinctIds(s) ==> DistinctIds(s[1..])
  {
    forall i, j | 0 <= i < j < |s[1..]| ensures s[1..][i] == s[i + 1] && s[1..][j] == s[j + 1] {
    }
  }

  /** Every entry after the first is an entry of `s[1..]`. */
  lemma TailMember(s: seq<ProductView>, x: ProductView)
    requires s != [] && x in s[1..]
    ensures exists k :: 1 <= k < |s| && s[k] == x
  {
    var k :| 0 <= k < |s[1..]| && s[1..][k] == x;
    assert s[k + 1] == x;
  }

  /** An insertion holds `v` and the entries of `s`, nothing else. */
  lemma InsertMembers(v: ProductView, s: seq<ProductView>)
    ensures forall x :: x in Insert(v, s) ==> x == v || x in s
  {
    var r := Insert(v, s);
    forall x | x in r ensures x == v || x in s {
      assert x in multiset(r);
    }
  }

  /** A list is newest first when its head is no older than anything in its
      newest-first tail. */
  lemma ConsNewestFirst(h: ProductView, rest: seq<ProductView>)
    requires NewestFirst(rest) && forall x :: x in rest ==> x.createdAt <= h.createdAt
    ensures NewestFirst([h] + rest)
  {
    var r := [h] + rest;
    forall i, j | 0 <= i < j < |r| ensures r[i].createdAt >= r[j].createdAt {
      assert r[j] == rest[j - 1];
      if i > 0 {
        assert r[i] == rest[i - 1];
      }
    }
  }

  /** A list has distinct ids when its head's id is not in its tail, whose ids
      are distinct. */
  lemma ConsDistinctIds(h: ProductView, rest: seq<ProductView>)
    requires DistinctIds(rest) && forall x :: x in rest ==> x.id != h.id
    ensures DistinctIds([h] + rest)
  {
    var r := [h] + rest;
    forall i, j | 0 <= i < j < |r| ensures r[i].id != r[j].id {
      assert r[j] == rest[j - 1];
      if i > 0 {
        assert r[i] == rest[i - 1];
      }
    }
  }

  /** Inserting into a newest-first list keeps it newest first. */
  lemma {:induction false} InsertKeepsNewestFirst(v: ProductView, s: seq<ProductView>)
    requires NewestFirst(s)
    ensures NewestFirst(Insert(v, s))
  {
    if s == [] {
    } else if v.createdAt > s[0].createdAt {
      forall x | x in s ensures x.createdAt <= v.createdAt {
        var k :| 0 <= k < |s| && s[k] == x;
      }
      ConsNewestFirst(v, s);
    } else {
      TailKeepsOrder(s);
      InsertKeepsNewestFirst(v, s[1..]);
      var rest := Insert(v, s[1..]);
      InsertMembers(v, s[1..]);
      forall x | x in rest ensures x.createdAt <= s[0].createdAt {
        if x != v {
          TailMember(s, x);
        }
      }
      ConsNewestFirst(s[0], rest);
    }
  }

  /** Inserting an entry whose id is new into a list of distinct ids keeps the
      ids distinct. */
  lemma {:induction false} InsertKeepsDistinctIds(v: ProductView, s: seq<ProductView>)
    requires DistinctIds(s) && forall x :: x in s ==> x.id != v.id
    ensures DistinctIds(Insert(v, s))
  {
    if s == [] {
    } else if v.createdAt > s[0].createdAt {
      ConsDistinctIds(v, s);
    } else {
      TailKeepsOrder(s);
      InsertKeepsDistinctIds(v, s[1..]);
      var rest := Insert(v, s[1..]);
      InsertMembers(v, s[1..]);
      forall x | x in rest ensures x.id != s[0].id {
        if x != v {
          TailMember(s, x);
        }
      }
      ConsDistinctIds(s[0], rest);
    }
  }

  /** The sort puts the list newest first and keeps distinct ids distinct. */
  lemma {:induction false} SortIsNewestFirst(s: seq<ProductView>)
    ensures NewestFirst(SortNewestFirst(s))
    ensures DistinctIds(s) ==> DistinctIds(SortNewestFirst(s))
  {
    if s != [] {
      var sorted := SortNewestFirst(s[1..]);
      SortIsNewestFirst(s[1..]);
      InsertKeepsNewestFirst(s[0], sorted);
      if DistinctIds(s) {
        TailKeepsOrder(s);
        forall x | x in sorted ensures x.id != s[0].id {
          assert x in multiset(sorted);
          TailMember(s, x);
        }
        InsertKeepsDistinctIds(s[0], sorted);
      }
    }
  }

  /** The products with ids in `[lo, hi)` that `sellerId` sells, by ascending id. */
  function OwnedBetween(products: map<int, Product>, sellerId: int, lo: int, hi: int): (r: seq<ProductView>)
    ensures forall x :: x in r <==>
      lo <= x.id < hi && Owns(products, x.id, sellerId) && x == View(x.id, products[x.id])
    ensures DistinctIds(r)
    decreases hi - lo
  {
    if lo >= hi then []
    else if Owns(products, lo, sellerId) then [View(lo, products[lo])] + OwnedBetween(products, sellerId, lo + 1, hi)
    else OwnedBetween(products, sellerId, lo + 1, hi)
  }

  /** `findMany({ where: { sellerId }, orderBy: { createdAt: 'desc' } })`, mapped
      through the response schema. `nextId` bounds the ids in use. */
  function SellerProducts(products: map<int, Product>, nextId: int, sellerId: int): (r: seq<ProductView>)
    requires forall id :: id in products ==> 1 <= id < nextId
    ensures forall x :: x in r <==> Owns(products, x.id, sellerId) && x == View(x.id, products[x.id])
    ensures forall id :: Owns(products, id, sellerId) ==> View(id, products[id]) in r
    ensures NewestFirst(r) && DistinctIds(r)
  {
    var owned := OwnedBetween(products, sellerId, 1, nextId);
    SortIsNewestFirst(owned);
    var r := SortNewestFirst(owned);
    assert forall x :: x in r <==> x in multiset(r);
    assert forall x :: x in owned <==> x in multiset(owned);
    r
  }

  /** `getSellerProducts`: a seller sees exactly the products they sell, newest
      first, each once. */
  function GetSellerProducts(products: map<int, Product>, nextId: int, role: Option<string>, userId: int): (reply: Reply)
    requires forall id :: id in products ==> 1 <= id < nextId
    ensures !IsSeller(role) <==> reply == Reply(403, Forbidden)
    ensures IsSeller(role) ==>
      && reply.status == 200 && reply.body.Many?
      && (forall x :: x in reply.body.views <==> Owns(products, x.id, userId) && x == View(x.id, products[x.id]))
      && NewestFirst(reply.body.views) && DistinctIds(reply.body.views)
  {
    if !IsSeller(role) then Reply(403, Forbidden)
    else Reply(200, Many(SellerProducts(products, nextId, userId)))
  }
}
