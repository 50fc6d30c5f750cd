/** The update-product request schema: the create-product rules for name,
    description, price and images, and no category field. */
module UpdateProductDto {
  import opened Values
  import CreateProductDto

  datatype RawUpdate = RawUpdate(
    name: CreateProductDto.TextInput, description: CreateProductDto.TextInput,
    price: Value, images: CreateProductDto.ImagesInput)

  datatype UpdateProduct = UpdateProduct(name: string, description: string, price: real, images: seq<string>)

  /** `updateProductSchema.parse`, with `None` for a thrown validation error. An
      update that leaves out `images` carries the empty list. */
  function Parse(raw: RawUpdate): (r: Option<UpdateProduct>)
    ensures r.Some? <==>
      CreateProductDto.NonEmptyText(raw.name) && CreateProductDto.NonEmptyText(raw.description)
      && CreateProductDto.PositiveNumber(raw.price) && CreateProductDto.ImagesAccepted(raw.images)
    ensures r.Some? ==>
      && r.value.name == raw.name.value && r.value.description == raw.description.value
      && r.value.price == raw.price.x
      && |r.value.name| >= 1 && |r.value.description| >= 1 && r.value.price > 0.0
    ensures r.Some? && raw.images.NoImages? ==> r.value.images == []
    ensures r.Some? && raw.images.ImageList? ==> r.value.images == CreateProductDto.Texts(raw.images.items)
  {
    if CreateProductDto.NonEmptyText(raw.name) && CreateProductDto.NonEmptyText(raw.description)
       && CreateProductDto.PositiveNumber(raw.price)
    then
      match CreateProductDto.ParseImages(raw.images)
      case Some(images) => Some(UpdateProduct(raw.name.value, raw.description.value, raw.price.x, images))
      case None => None
    else None
  }
}
