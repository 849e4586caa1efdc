/** The front end's home controller: each action calls the backend and turns
    whatever happens into a fully populated view model. The HTTP call and the
    JSON decoding are abstracted into a `CallOutcome`. */
module HomeController {
  import opened Results
  import opened InstanceInfoModel
  import opened HomeModel

  /** An `HttpStatusCode` value: its number and the text that string
      interpolation writes for it, which is the enum member name (for example
      503 and "ServiceUnavailable") or the decimal number when the enum has no
      member for the code. */
  datatype HttpStatusCode = HttpStatusCode(code: int, name: string)

  /** What one call to the backend produced:
      a 2xx response whose body decoded to a value or to null,
      a response whose status is not 2xx,
      or an exception (connection, timeout, decoding) with its message. */
  datatype CallOutcome<T> =
    | Success(decoded: Option<T>)
    | HttpError(status: HttpStatusCode)
    | Fault(message: string)

  const HttpErrorPrefix: string := "HTTP error! status: "
  const FaultPrefix: string := "Erro ao chamar API: "

  /** `Index`: the page with nothing loaded. */
  function Index(): (viewModel: HomeViewModel)
    ensures viewModel.instanceInfo.None? && viewModel.products.None?
    ensures viewModel.productsErrorMessage.None? && !viewModel.HasProductsError()
  {
    HomeModel.Empty()
  }

  /** `CallInstanceApi`: the instance section is always present, the product
      section is never touched, and the outcome decides what the instance
      section holds. */
  method CallInstanceApi(outcome: CallOutcome<InstanceInfoViewModel>) returns (viewModel: HomeViewModel)
    ensures viewModel.instanceInfo.Some?
    ensures viewModel.products.None? && viewModel.productsErrorMessage.None?
    ensures !viewModel.HasProductsError()
    ensures outcome.Success? && outcome.decoded.Some? ==>
              viewModel.instanceInfo.value == outcome.decoded.value
    ensures outcome == Success(None) ==> viewModel.instanceInfo.value == InstanceInfoModel.Empty()
    ensures outcome.HttpError? ==>
              viewModel.instanceInfo.value
                == InstanceInfoModel.Empty().(errorMessage := Some(HttpErrorPrefix + outcome.status.name))
    ensures outcome.Fault? ==>
              viewModel.instanceInfo.value
                == InstanceInfoModel.Empty().(errorMessage := Some(FaultPrefix + outcome.message))
    ensures outcome.HttpError? || outcome.Fault? ==> viewModel.instanceInfo.value.HasError()
    ensures outcome == Success(None) ==> !viewModel.instanceInfo.value.HasError()
  {
    viewModel := HomeModel.Empty().(instanceInfo := Some(InstanceInfoModel.Empty()));
    match outcome {
      case Success(apiData) =>
        if apiData.Some? {
          viewModel := viewModel.(instanceInfo := Some(apiData.value));
        }
      case HttpError(status) =>
        var info := viewModel.instanceInfo.value;
        viewModel := viewModel.(instanceInfo := Some(info.(errorMessage := Some(HttpErrorPrefix + status.name))));
      case Fault(message) =>
        var info := viewModel.instanceInfo.value;
        viewModel := viewModel.(instanceInfo := Some(info.(errorMessage := Some(FaultPrefix + message))));
    }
  }

  /** `CallProductsApi`: the product list is always present (empty unless a
      non-null list was decoded), the instance section is never touched, and
      the products error is set exactly on an HTTP error or a fault. */
  method CallProductsApi(outcome: CallOutcome<seq<ProductViewModel>>) returns (viewModel: HomeViewModel)
    ensures viewModel.instanceInfo.None?
    ensures viewModel.products.Some?
    ensures outcome.Success? && outcome.decoded.Some? ==>
              viewModel.products.value == outcome.decoded.value
    ensures !(outcome.Success? && outcome.decoded.Some?) ==> viewModel.products.value == []
    ensures outcome.Success? ==> viewModel.productsErrorMessage.None?
    ensures outcome.HttpError? ==>
              viewModel.productsErrorMessage == Some(HttpErrorPrefix + outcome.status.name)
    ensures outcome.Fault? ==> viewModel.productsErrorMessage == Some(FaultPrefix + outcome.message)
    ensures viewModel.HasProductsError() <==> !outcome.Success?
  {
    viewModel := HomeModel.Empty().(products := Some([]));
    match outcome {
      case Success(products) =>
        if products.Some? {
          viewModel := viewModel.(products := Some(products.value));
        }
      case HttpError(status) =>
        viewModel := viewModel.(productsErrorMessage := Some(HttpErrorPrefix + status.name));
      case Fault(message) =>
        viewModel := viewModel.(productsErrorMessage := Some(FaultPrefix + message));
    }
  }
}
