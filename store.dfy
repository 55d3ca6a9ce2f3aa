/**
 * The MySQL database the routes write through one cursor: one sequence of
 * rows per table, changed one `INSERT` or `DELETE` at a time. Each method is
 * proved against the table-level functions of `Catalog` and `FanOut`.
 */
module Store {
  import opened Seqs
  import opened Schema
  import opened FanOut
  import opened Catalog

  class Database {
    var categories: seq<Category>
    var products: seq<Product>
    var specifications: seq<Specification>
    var packaging: seq<Packaging>
    var images: seq<Image>
    var inquiries: seq<Inquiry>
    var admins: seq<Admin>
    var nextProductId: int   // AUTO_INCREMENT counter of `products`

    /** The tables as a value. */
    function Snapshot(): Tables
      reads this
    {
      Tables(categories, products, specifications, packaging, images, inquiries, admins, nextProductId)
    }

    ghost predicate Valid()
      reads this
    {
      WellFormed(Snapshot())
    }

    /** A database whose categories and admin accounts were seeded out of band. */
    constructor (categories: seq<Category>, admins: seq<Admin>)
      requires UniqueUsernames(admins)
      ensures Valid()
      ensures Snapshot() == Tables(categories, [], [], [], [], [], admins, 1)
    {
      this.categories := categories;
      this.admins := admins;
      products, specifications, packaging, images, inquiries := [], [], [], [], [];
      nextProductId := 1;
    }

    /** `INSERT INTO products`, then `lastrowid` (app.py:216-222). */
    method InsertProduct(categoryId: int, name: string, description: string, packagingText: string, moq: string)
      returns (id: int)
      requires Valid()
      modifies this`products, this`nextProductId
      ensures Valid()
      ensures id == old(nextProductId) && nextProductId == id + 1
      ensures products == old(products) + [Product(id, categoryId, name, description, packagingText, moq)]
    {
      id := nextProductId;
      products := products + [Product(id, categoryId, name, description, packagingText, moq)];
      nextProductId := id + 1;
    }

    /** The specification loop of `add_product` (app.py:225-234). */
    method InsertSpecifications(pid: int, names: seq<string>, values: seq<string>)
      requires Valid() && pid < nextProductId
      modifies this`specifications
      ensures Valid()
      ensures specifications == old(specifications) + SpecRows(pid, Zip(names, values))
    {
      var pairs := Zip(names, values);
      for i := 0 to |pairs|
        invariant specifications == old(specifications) + SpecRows(pid, pairs[..i])
        invariant Valid()
      {
        var (name, value) := pairs[i];
        if name != "" && value != "" {
          specifications := specifications + [Specification(pid, name, value)];
        }
        assert pairs[..i + 1][..i] == pairs[..i];
      }
      assert pairs[..|pairs|] == pairs;
    }

    /** The packaging loop of `add_product` (app.py:237-248). */
    method InsertPackaging(pid: int, types: seq<string>, weights: seq<string>,
                           container20: seq<string>, container40: seq<string>)
      requires Valid() && pid < nextProductId
      modifies this`packaging
      ensures Valid()
      ensures packaging == old(packaging) + PackagingRows(pid, Zip4(types, weights, container20, container40))
    {
      var entries := Zip4(types, weights, container20, container40);
      for i := 0 to |entries|
        invariant packaging == old(packaging) + PackagingRows(pid, entries[..i])
        invariant Valid()
      {
        var (p, w, c20, c40) := entries[i];
        if p != "" && w != "" {
          packaging := packaging + [Packaging(pid, p, w, c20, c40)];
        }
        assert entries[..i + 1][..i] == entries[..i];
      }
      assert entries[..|entries|] == entries;
    }

    /** The image loop of `add_product` (app.py:251-262); `sanitize` stands for `secure_filename`. */
    method InsertImages(pid: int, files: seq<Upload>, sanitize: string -> string)
      requires Valid() && pid < nextProductId
      modifies this`images
      ensures Valid()
      ensures images == old(images) + ImageRows(pid, files, sanitize)
    {
      for i := 0 to |files|
        invariant images == old(images) + ImageRows(pid, files[..i], sanitize)
        invariant Valid()
      {
        var image := files[i];
        if image.filename != "" {
          var filename := sanitize(image.filename);
          images := images + [Image(pid, filename)];
        }
        assert files[..i + 1][..i] == files[..i];
      }
      assert files[..|files|] == files;
    }

    /** `INSERT INTO inquiries` (app.py:106-111). */
    method InsertInquiry(row: Inquiry)
      requires Valid()
      modifies this`inquiries
      ensures Valid()
      ensures inquiries == old(inquiries) + [row]
    {
      inquiries := inquiries + [row];
    }

    /** `DELETE FROM products WHERE id = %s` (app.py:283). */
    method DeleteProduct(id: int)
      requires Valid()
      modifies this`products
      ensures Valid()
      ensures products == Where(old(products), OtherThan(id))
    {
      DeleteKeepsWellFormed(Snapshot(), id);
      products := Where(products, OtherThan(id));
    }
  }
}
