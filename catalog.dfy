/**
 * The database as a value: one sequence of rows per table plus the
 * AUTO_INCREMENT counter of `products`. The mutating routes are stated here
 * as functions from the old tables to the new ones, the read queries as
 * functions of the tables, and the lemmas relate the two.
 */
module Catalog {
  import opened Seqs
  import opened Schema
  import opened FanOut

  datatype Tables = Tables(
    categories: seq<Category>,
    products: seq<Product>,
    specifications: seq<Specification>,
    packaging: seq<Packaging>,
    images: seq<Image>,
    inquiries: seq<Inquiry>,
    admins: seq<Admin>,
    nextProductId: int)   // the id `lastrowid` reports for the next product insert

  /** AUTO_INCREMENT hands out ids in increasing order, so the products table is sorted by id. */
  predicate IdsIncreasing(ps: seq<Product>)
  {
    forall i, j :: 0 <= i < j < |ps| ==> ps[i].id < ps[j].id
  }

  /** `admin.username` is a UNIQUE column. */
  predicate UniqueUsernames(admins: seq<Admin>)
  {
    forall i, j :: 0 <= i < j < |admins| ==> admins[i].username != admins[j].username
  }

  /**
   * What the schema and the routes keep true: product ids are increasing and
   * below the next id to be allocated, every child row names an id that was
   * already allocated, and admin usernames are unique.
   */
  predicate WellFormed(t: Tables)
  {
    && IdsIncreasing(t.products)
    && (forall p :: p in t.products ==> p.id < t.nextProductId)
    && (forall s :: s in t.specifications ==> s.productId < t.nextProductId)
    && (forall q :: q in t.packaging ==> q.productId < t.nextProductId)
    && (forall m :: m in t.images ==> m.productId < t.nextProductId)
    && UniqueUsernames(t.admins)
  }

  // Row predicates of the WHERE clauses.

  function HasId(id: int): Product -> bool { (p: Product) => p.id == id }
  function OtherThan(id: int): Product -> bool { (p: Product) => p.id != id }
  function InCategory(categoryId: int): Product -> bool { (p: Product) => p.categoryId == categoryId }
  function SpecOf(pid: int): Specification -> bool { (s: Specification) => s.productId == pid }
  function PackagingOf(pid: int): Packaging -> bool { (q: Packaging) => q.productId == pid }
  function ImageOf(pid: int): Image -> bool { (m: Image) => m.productId == pid }

  /** `category_products`: the products whose category is `categoryId`, in table order. */
  function ProductsInCategory(t: Tables, categoryId: int): (r: seq<Product>)
    ensures forall p :: p in r <==> p in t.products && p.categoryId == categoryId
    ensures forall p {:trigger multiset(r)[p]} ::
      multiset(r)[p] == if p.categoryId == categoryId then multiset(t.products)[p] else 0
  {
    Where(t.products, InCategory(categoryId))
  }

  /** What `product_detail` reads for one product id. */
  datatype ProductView = ProductView(
    product: Option<Product>,
    specifications: seq<Specification>,
    packaging: seq<Packaging>,
    images: seq<Image>)

  /**
   * `product_detail`: the product row with that id (absent when there is
   * none) and the child rows that name the id, in table order, each as
   * often as the table holds it.
   */
  function ViewProduct(t: Tables, pid: int): (v: ProductView)
    ensures v.product.Some? ==> v.product.value in t.products && v.product.value.id == pid
    ensures v.product.None? <==> forall p :: p in t.products ==> p.id != pid
    ensures forall s :: s in v.specifications <==> s in t.specifications && s.productId == pid
    ensures forall q :: q in v.packaging <==> q in t.packaging && q.productId == pid
    ensures forall m :: m in v.images <==> m in t.images && m.productId == pid
    ensures forall s {:trigger multiset(v.specifications)[s]} ::
      multiset(v.specifications)[s] == if s.productId == pid then multiset(t.specifications)[s] else 0
    ensures forall q {:trigger multiset(v.packaging)[q]} ::
      multiset(v.packaging)[q] == if q.productId == pid then multiset(t.packaging)[q] else 0
    ensures forall m {:trigger multiset(v.images)[m]} ::
      multiset(v.images)[m] == if m.productId == pid then multiset(t.images)[m] else 0
  {
    ProductView(
      First(t.products, HasId(pid)),
      Where(t.specifications, SpecOf(pid)),
      Where(t.packaging, PackagingOf(pid)),
      Where(t.images, ImageOf(pid)))
  }

  /**
   * `add_product` (POST): one product row under the next id, then its
   * fanned-out child rows. Every existing row stays where it was, every new
   * child row names the new id, and only the catalog tables grow.
   */
  function AddProductTables(t: Tables, f: ProductForm, files: seq<Upload>, sanitize: string -> string): (r: Tables)
    ensures r.categories == t.categories && r.inquiries == t.inquiries && r.admins == t.admins
    ensures |r.products| == |t.products| + 1 && r.products[..|t.products|] == t.products
    ensures r.products[|t.products|].id == t.nextProductId < r.nextProductId
    ensures t.specifications <= r.specifications
    ensures forall s :: s in r.specifications[|t.specifications|..] ==>
      s.productId == t.nextProductId && s.name != "" && s.value != ""
    ensures t.packaging <= r.packaging
    ensures forall q :: q in r.packaging[|t.packaging|..] ==>
      q.productId == t.nextProductId && q.packagingType != "" && q.weight != ""
    ensures t.images <= r.images
    ensures forall m :: m in r.images[|t.images|..] ==> m.productId == t.nextProductId
  {
    var pid := t.nextProductId;
    t.(products := t.products + [Product(pid, f.categoryId, f.name, f.description, f.packaging, f.moq)],
       specifications := t.specifications + SpecRows(pid, Zip(f.specNames, f.specValues)),
       packaging := t.packaging + PackagingRows(pid, Zip4(f.packTypes, f.weights, f.container20, f.container40)),
       images := t.images + ImageRows(pid, files, sanitize),
       nextProductId := pid + 1)
  }

  /** `delete_product`: delete the product rows with that id, and nothing else. */
  function DeleteProductTables(t: Tables, id: int): (r: Tables)
    ensures r == t.(products := r.products)
    ensures forall p :: p in r.products <==> p in t.products && p.id != id
    ensures forall p {:trigger multiset(r.products)[p]} ::
      multiset(r.products)[p] == if p.id != id then multiset(t.products)[p] else 0
  {
    t.(products := Where(t.products, OtherThan(id)))
  }

  /** `inquiry` (POST): append one inquiry row; no other table changes. */
  function InquiryTables(t: Tables, row: Inquiry): (r: Tables)
    ensures r == t.(inquiries := r.inquiries)
    ensures |r.inquiries| == |t.inquiries| + 1
    ensures r.inquiries[..|t.inquiries|] == t.inquiries && r.inquiries[|t.inquiries|] == row
  {
    t.(inquiries := t.inquiries + [row])
  }

  /** The id `add_product` is about to use names no existing product and no existing child row. */
  lemma NextIdIsFresh(t: Tables)
    requires WellFormed(t)
    ensures ViewProduct(t, t.nextProductId) == ProductView(None, [], [], [])
  {
    var pid := t.nextProductId;
    WhereNone(t.specifications, SpecOf(pid));
    WhereNone(t.packaging, PackagingOf(pid));
    WhereNone(t.images, ImageOf(pid));
  }

  /**
   * After `add_product`, the new id shows exactly the submitted product and
   * the selected child rows; categories, inquiries and admins are untouched
   * and the products table grew by one row.
   */
  lemma AddedProductView(t: Tables, f: ProductForm, files: seq<Upload>, sanitize: string -> string)
    requires WellFormed(t)
    ensures var t' := AddProductTables(t, f, files, sanitize);
      var pid := t.nextProductId;
      && ViewProduct(t', pid) == ProductView(
           Some(Product(pid, f.categoryId, f.name, f.description, f.packaging, f.moq)),
           SpecRows(pid, Zip(f.specNames, f.specValues)),
           PackagingRows(pid, Zip4(f.packTypes, f.weights, f.container20, f.container40)),
           ImageRows(pid, files, sanitize))
      && |t'.products| == |t.products| + 1
      && t'.categories == t.categories && t'.inquiries == t.inquiries && t'.admins == t.admins
  {
    var pid := t.nextProductId;
    var product := Product(pid, f.categoryId, f.name, f.description, f.packaging, f.moq);
    FirstAppend(t.products, [product], HasId(pid));
    WhereAppendFresh(t.specifications, SpecRows(pid, Zip(f.specNames, f.specValues)), SpecOf(pid));
    WhereAppendFresh(t.packaging,
      PackagingRows(pid, Zip4(f.packTypes, f.weights, f.container20, f.container40)), PackagingOf(pid));
    WhereAppendFresh(t.images, ImageRows(pid, files, sanitize), ImageOf(pid));
  }

  /** `add_product` changes nothing that any other product id shows. */
  lemma AddLeavesOtherProducts(t: Tables, f: ProductForm, files: seq<Upload>, sanitize: string -> string, q: int)
    requires q != t.nextProductId
    ensures ViewProduct(AddProductTables(t, f, files, sanitize), q) == ViewProduct(t, q)
  {
    var pid := t.nextProductId;
    var product := Product(pid, f.categoryId, f.name, f.description, f.packaging, f.moq);
    FirstAppend(t.products, [product], HasId(q));
    WhereAppendMiss(t.specifications, SpecRows(pid, Zip(f.specNames, f.specValues)), SpecOf(q));
    WhereAppendMiss(t.packaging,
      PackagingRows(pid, Zip4(f.packTypes, f.weights, f.container20, f.container40)), PackagingOf(q));
    WhereAppendMiss(t.images, ImageRows(pid, files, sanitize), ImageOf(q));
  }

  /** `add_product` keeps the tables well formed. */
  lemma AddKeepsWellFormed(t: Tables, f: ProductForm, files: seq<Upload>, sanitize: string -> string)
    requires WellFormed(t)
    ensures WellFormed(AddProductTables(t, f, files, sanitize))
  {
  }

  /** Filtering keeps the products sorted by id. */
  lemma {:induction false} WhereKeepsIdsIncreasing(ps: seq<Product>, keep: Product -> bool)
    requires IdsIncreasing(ps)
    ensures IdsIncreasing(Where(ps, keep))
  {
    if ps != [] {
      WhereKeepsIdsIncreasing(ps[1..], keep);
      var rest := Where(ps[1..], keep);
      assert forall x :: x in ps[1..] ==> ps[0].id < x.id by {
        forall x | x in ps[1..] ensures ps[0].id < x.id {
          var j :| 0 <= j < |ps[1..]| && ps[1..][j] == x;
          assert ps[j + 1] == x;
        }
      }
      assert forall j :: 0 <= j < |rest| ==> ps[0].id < rest[j].id by {
        forall j | 0 <= j < |rest| ensures ps[0].id < rest[j].id {
          assert rest[j] in rest;
        }
      }
    }
  }

  /** In a table sorted by id, deleting by id removes one row if the id is present and none otherwise. */
  lemma {:induction false} DeleteCount(ps: seq<Product>, id: int)
    requires IdsIncreasing(ps)
    ensures |Where(ps, OtherThan(id))| == |ps| - (if First(ps, HasId(id)).Some? then 1 else 0)
  {
    if ps != [] {
      if ps[0].id == id {
        assert forall x :: x in ps[1..] ==> OtherThan(id)(x) by {
          forall x | x in ps[1..] ensures x.id != id {
            var j :| 0 <= j < |ps[1..]| && ps[1..][j] == x;
            assert ps[j + 1] == x;
          }
        }
        WhereAll(ps[1..], OtherThan(id));
      } else {
        DeleteCount(ps[1..], id);
      }
    }
  }

  /**
   * After `delete_product`, the id shows no product; its specification,
   * packaging and image rows are still there (the route deletes from
   * `products` only), and every other table is untouched.
   */
  lemma DeletedProductView(t: Tables, id: int)
    ensures var t' := DeleteProductTables(t, id);
      && ViewProduct(t', id).product == None
      && ViewProduct(t', id).specifications == ViewProduct(t, id).specifications
      && ViewProduct(t', id).packaging == ViewProduct(t, id).packaging
      && ViewProduct(t', id).images == ViewProduct(t, id).images
      && t'.categories == t.categories && t'.specifications == t.specifications
      && t'.packaging == t.packaging && t'.images == t.images
      && t'.inquiries == t.inquiries && t'.admins == t.admins
  {
  }

  /** `delete_product` removes exactly one row when the id exists and none when it does not. */
  lemma DeleteRemovesOne(t: Tables, id: int)
    requires WellFormed(t)
    ensures |DeleteProductTables(t, id).products|
         == |t.products| - (if ViewProduct(t, id).product.Some? then 1 else 0)
  {
    DeleteCount(t.products, id);
  }

  /** `delete_product` changes nothing that any other product id shows. */
  lemma DeleteLeavesOtherProducts(t: Tables, id: int, q: int)
    requires q != id
    ensures ViewProduct(DeleteProductTables(t, id), q) == ViewProduct(t, q)
  {
    FirstWhere(t.products, OtherThan(id), HasId(q));
  }

  /** `delete_product` keeps the tables well formed. */
  lemma DeleteKeepsWellFormed(t: Tables, id: int)
    requires WellFormed(t)
    ensures WellFormed(DeleteProductTables(t, id))
  {
    WhereKeepsIdsIncreasing(t.products, OtherThan(id));
  }

  /** An inquiry is one more row in `inquiries`; every product view and the invariant are unaffected. */
  lemma InquiryLeavesCatalog(t: Tables, row: Inquiry, q: int)
    requires WellFormed(t)
    ensures WellFormed(InquiryTables(t, row))
    ensures ViewProduct(InquiryTables(t, row), q) == ViewProduct(t, q)
    ensures InquiryTables(t, row).inquiries[|t.inquiries|] == row
  {
  }
}
