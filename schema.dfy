/**
 * The rows of the site's tables and the inputs of its forms.
 * Every column the application writes is a field; child rows' own
 * AUTO_INCREMENT ids and `created_at` are never read back and are omitted.
 */
module Schema {

  datatype Category = Category(id: int, name: string)

  datatype Product = Product(
    id: int,
    categoryId: int,
    name: string,
    description: string,
    packaging: string,   // the free-text packaging summary
    moq: string)         // minimum order quantity, stored as text

  datatype Specification = Specification(productId: int, name: string, value: string)

  datatype Packaging = Packaging(
    productId: int,
    packagingType: string,
    weight: string,
    container20ft: string,
    container40ft: string)

  datatype Image = Image(productId: int, imageName: string)

  datatype Inquiry = Inquiry(
    productId: int,
    buyerName: string,
    email: string,
    country: string,
    quantity: string,
    message: string)

  datatype Admin = Admin(id: int, username: string, passwordHash: string)

  /** One slot of the `images` file input; an unfilled slot has an empty filename. */
  datatype Upload = Upload(filename: string)

  /** The fields of the admin add-product form, repeated fields as lists in submission order. */
  datatype ProductForm = ProductForm(
    name: string,
    categoryId: int,
    description: string,
    packaging: string,
    moq: string,
    specNames: seq<string>,
    specValues: seq<string>,
    packTypes: seq<string>,
    weights: seq<string>,
    container20: seq<string>,
    container40: seq<string>)
}
