/** The create-product request schema: non-empty name, description and category,
    a positive price, and a list of image URLs that defaults to empty. */
module CreateProductDto {
  import opened Values

  /** One entry of `images`: its text, and whether it is a string the URL parser
      accepts (the parser itself is not part of this model). */
  datatype ImageRef = ImageRef(text: string, isUrl: bool)

  /** The `images` field: absent, an array of strings, or anything else. */
  datatype ImagesInput = NoImages | ImageList(items: seq<ImageRef>) | NotAList

  /** A text field: `None` when absent or not a string. */
  type TextInput = Option<string>

  datatype RawProduct = RawProduct(
    name: TextInput, description: TextInput, price: Value, images: ImagesInput, category: TextInput)

  datatype CreateProduct = CreateProduct(
    name: string, description: string, price: real, images: seq<string>, category: string)

  /** `z.string().min(1)` */
  predicate NonEmptyText(t: TextInput)
  {
    t.Some? && |t.value| >= 1
  }

  /** `z.number().positive()` */
  predicate PositiveNumber(v: Value)
  {
    v.Number? && v.x > 0.0
  }

  /** `z.array(z.string().url()).optional()` */
  predicate ImagesAccepted(images: ImagesInput)
  {
    images.NoImages? || (images.ImageList? && forall i :: 0 <= i < |images.items| ==> images.items[i].isUrl)
  }

  function Texts(items: seq<ImageRef>): (r: seq<string>)
    ensures |r| == |items| && forall i :: 0 <= i < |items| ==> r[i] == items[i].text
  {
    seq(|items|, i requires 0 <= i < |items| => items[i].text)
  }

  /** The parsed `images`: `.default([])` when absent. */
  function ParseImages(images: ImagesInput): (r: Option<seq<string>>)
    ensures r.Some? <==> ImagesAccepted(images)
    ensures images.NoImages? ==> r == Some([])
    ensures images.ImageList? && r.Some? ==> r.value == Texts(images.items)
  {
    match images
    case NoImages => Some([])
    case ImageList(items) =>
      if forall i :: 0 <= i < |items| ==> items[i].isUrl then Some(Texts(items)) else None
    case NotAList => None
  }

  /** `createProductSchema.parse`, with `None` for a thrown validation error.
      Keys the schema does not name are dropped. */
  function Parse(raw: RawProduct): (r: Option<CreateProduct>)
    ensures r.Some? <==>
      NonEmptyText(raw.name) && NonEmptyText(raw.description) && PositiveNumber(raw.price)
      && ImagesAccepted(raw.images) && NonEmptyText(raw.category)
    ensures r.Some? ==>
      && r.value.name == raw.name.value && r.value.description == raw.description.value
      && r.value.price == raw.price.x && r.value.category == raw.category.value
      && |r.value.name| >= 1 && |r.value.description| >= 1 && |r.value.category| >= 1
      && r.value.price > 0.0
    ensures r.Some? && raw.images.NoImages? ==> r.value.images == []
    ensures r.Some? && raw.images.ImageList? ==> r.value.images == Texts(raw.images.items)
  {
    if NonEmptyText(raw.name) && NonEmptyText(raw.description) && PositiveNumber(raw.price)
       && NonEmptyText(raw.category)
    then
      match ParseImages(raw.images)
      case Some(images) => Some(CreateProduct(raw.name.value, raw.description.value, raw.price.x, images, raw.category.value))
      case None => None
    else None
  }
}
