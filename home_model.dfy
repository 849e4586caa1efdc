/** The model of the front end's home page: optional instance information,
    an optional product list and an optional products error message, with the
    derived `HasProductsError` flag. */
module HomeModel {
  import opened Results
  import opened InstanceInfoModel

  /** A product as the front end decodes it from the backend's JSON. */
  datatype ProductViewModel = ProductViewModel(id: int, name: string, description: string, priceCents: int)

  datatype HomeViewModel = HomeViewModel(
    instanceInfo: Option<InstanceInfoViewModel>,
    products: Option<seq<ProductViewModel>>,
    productsErrorMessage: Option<string>)
  {
    /** `HasProductsError => !string.IsNullOrEmpty(ProductsErrorMessage)`. */
    predicate HasProductsError()
    {
      !IsNullOrEmpty(productsErrorMessage)
    }
  }

  /** `new HomeViewModel()`: every property left at its default. */
  function Empty(): (v: HomeViewModel)
    ensures v.instanceInfo.None? && v.products.None? && v.productsErrorMessage.None?
    ensures !v.HasProductsError()
  {
    HomeViewModel(None, None, None)
  }

  /** The flag is set exactly when a non-empty message is present. */
  lemma HasProductsErrorIffMessage(v: HomeViewModel)
    ensures v.HasProductsError() <==> v.productsErrorMessage.Some? && |v.productsErrorMessage.value| > 0
    ensures v.productsErrorMessage.None? ==> !v.HasProductsError()
    ensures v.productsErrorMessage == Some("") ==> !v.HasProductsError()
  {
  }

  /** The flag does not depend on the instance information or the products. */
  lemma HasProductsErrorIgnoresData(v: HomeViewModel, w: HomeViewModel)
    requires v.productsErrorMessage == w.productsErrorMessage
    ensures v.HasProductsError() == w.HasProductsError()
  {
  }
}
