# Product catalog demo: backend handlers and front-end relay, in Dafny

This project models the deterministic core of a two-tier web sample.

- The backend is a minimal HTTP API. It holds a fixed, ordered array of five products and serves `GET /products` and `GET /products/{id}`. The later version also serves `GET /health` and `GET /instance`. The instance endpoint reports an instance id, the host name, the startup time and the uptime as `HH:MM:SS`.
- The front end is an MVC controller. Its actions call the backend and turn each outcome into a fully populated view model. The outcomes are success, an HTTP error status and a thrown exception.

Modules:

- `Results`: the `Option` type, `string.IsNullOrEmpty`, and `HttpResult` (`Results.Ok` / `Results.NotFound`).
- `Catalog`: the `Product` record, the seed array, `FirstOrDefault` (the first-match search), and the `/products` and `/products/{id}` handlers. Both backend versions declare the same array and the same two handlers, so they are defined once.
- `Uptime`: the `TimeSpan` components and their `D2`-padded `HH:MM:SS` rendering.
- `InstanceApi`: what the later backend adds, namely the startup descriptor, `/health` and `/instance`.
- `InstanceInfoModel`, `HomeModel`: the view-model records with `HasError` and `HasProductsError`.
- `HomeController`: `Index`, `CallInstanceApi`, `CallProductsApi`.

The handlers are pure, so they are functions. The controller actions build their view model step by step, so they are methods. Each method assigns the fields branch by branch using datatype updates.

Modelling choices:

- Times are .NET ticks (100 ns) as integers.
- The uptime components come from the whole elapsed seconds `s`: hours `(s / 3600) % 24`, minutes `(s / 60) % 60`, seconds `s % 60`. `TimeSpan.Hours` is a component, so the hours wrap every 24 hours, and the model follows the code here. A design that shows total elapsed hours would differ from the code after one day. `Uptime.NotMonotone` shows that the string goes from `23:59:59` back to `00:00:00`.
- An HTTP error message embeds the text that interpolating an `HttpStatusCode` produces. For a code the enum defines, that is the member name, for example `ServiceUnavailable` for 503, not "503". For a code it does not define, it is the decimal number. The model keeps this text abstract as `HttpStatusCode.name`.
- Prices are whole cents. No arithmetic is done on them.
- The GUID text, the machine name and the clock readings are parameters. The GUID text is required to have the shape of `Guid.ToString("N")`: 32 lower-case hex digits.
- `InstanceInfoViewModel` follows `Webinars/Webinar5/Apps/MyApp.WebApp/Models/InstanceInfoViewModel.cs`. The controller's own copy of it is not part of this model.
- `ProductViewModel.cs` is not part of this model. Its fields are taken to mirror the backend's `Product` record.

## Model

| member | source | states |
|---|---|---|
| `Catalog.FirstOrDefault` | Webinars/Webinar5/Apps/MyApp.WebApi/Program.cs:35 | Null exactly when no product has the id. Otherwise it is the element at the first index whose id matches, and no earlier element has that id. |
| `Catalog.FirstOrDefaultAppend` | Webinars/Webinar2/Apps/MyApp.WebApi/Program.cs:23 | Array order decides the result: a match in the front part wins over any match in the back part. |
| `Catalog.Seed` | Webinars/Webinar5/Apps/MyApp.WebApi/Program.cs:18-25 | The seed has exactly 5 products with ids 1..5 in order, pairwise distinct. The Webinar2 array at lines 9-16 is identical. |
| `Catalog.GetProducts` | Webinars/Webinar2/Apps/MyApp.WebApi/Program.cs:18-19 | Always 200 with the array unchanged: same length, same order. |
| `Catalog.GetProductById` | Webinars/Webinar5/Apps/MyApp.WebApi/Program.cs:33-38 | 404 exactly when no product has the id. Otherwise 200 with a product that carries the id, is an element of the array and is the first such element. |
| `Catalog.ListingAgreesWithLookup` | Webinars/Webinar2/Apps/MyApp.WebApi/Program.cs:18-26 | When ids are distinct, each listed product is what the lookup returns for its id, and an id absent from the listing gives 404. |
| `Catalog.SeedLookup` | Webinars/Webinar2/Apps/MyApp.WebApi/Program.cs:21-24 | On the seed, the lookup succeeds exactly for ids 1..5 and returns the product at position id-1. |
| `Catalog.ConcreteLookups` | Webinars/Webinar5/Apps/MyApp.WebApi/Program.cs:22 | `/products/3` returns Headphones at 249.99. `/products/99` returns 404. |
| `InstanceApi.Startup` | Webinars/Webinar5/Apps/MyApp.WebApi/Program.cs:13-15 | The instance id is the 8-character prefix of the GUID's "N" text, so it is all hex digits. The host name and startup time are kept as given. |
| `InstanceApi.GetHealth` | Webinars/Webinar5/Apps/MyApp.WebApi/Program.cs:27-28 | Always 200 with status "healthy" and the current time. |
| `InstanceApi.GetInstance` | Webinars/Webinar5/Apps/MyApp.WebApi/Program.cs:40-51 | Always 200 with the startup id, host name and startup time. The uptime is 8 characters `HH:MM:SS` with digits in every field position. Its pairs read as the hours (< 24), minutes (< 60) and seconds (< 60) components of `utcNow - startupTime`, and together they give back the elapsed whole seconds modulo one day. |
| `InstanceApi.InstanceStableAcrossRequests` | Webinars/Webinar5/Apps/MyApp.WebApi/Program.cs:43-46 | Any two requests report the same id, host name and startup time. |
| `InstanceApi.InstanceRepeatsNextDay` | Webinars/Webinar5/Apps/MyApp.WebApi/Program.cs:42-47 | A request exactly one day later returns identical instance information, uptime included. |
| `Uptime.Pad2` | Webinars/Webinar5/Apps/MyApp.WebApi/Program.cs:47 | `D2` of a value below 100 is two digit characters that read back as the value. |
| `Uptime.Components` | Webinars/Webinar5/Apps/MyApp.WebApi/Program.cs:47 | For s whole elapsed seconds: hours = (s/3600)%24, minutes = (s/60)%60, seconds = s%60. So hours < 24, minutes < 60 and seconds < 60, and together they rebuild s modulo one day. |
| `Uptime.Format` | Webinars/Webinar5/Apps/MyApp.WebApi/Program.cs:47 | For a non-negative span, exactly 8 characters `HH:MM:SS`: colons at 2 and 5, digits elsewhere, and each pair reads back as the matching component. |
| `Uptime.RoundTrip` | Webinars/Webinar5/Apps/MyApp.WebApi/Program.cs:47 | Parsing the uptime string gives back the elapsed whole seconds modulo 86400. |
| `Uptime.OneDayLater` | Webinars/Webinar5/Apps/MyApp.WebApi/Program.cs:47 | Adding one day to the span leaves the string unchanged. |
| `Uptime.WrapsDaily` | Webinars/Webinar5/Apps/MyApp.WebApi/Program.cs:47 | Spans that differ by any whole number of days format identically. |
| `Uptime.NotMonotone` | Webinars/Webinar5/Apps/MyApp.WebApi/Program.cs:47 | One second before a full day the string is `23:59:59`. At a full day it is `00:00:00`. |
| `InstanceInfoModel.Empty` | Webinars/Webinar5/Apps/MyApp.WebApp/Models/InstanceInfoViewModel.cs:3-11 | A new view model has every field absent and `HasError` false. |
| `InstanceInfoModel.HasErrorIffMessage` | Webinars/Webinar5/Apps/MyApp.WebApp/Models/InstanceInfoViewModel.cs:10 | About the predicate `InstanceInfoModel.InstanceInfoViewModel.HasError`, which models line 10 as `!Results.IsNullOrEmpty(errorMessage)`. `HasError` holds iff the message is present and non-empty. A null message or an empty one both mean no error. |
| `InstanceInfoModel.HasErrorIgnoresData` | Webinars/Webinar5/Apps/MyApp.WebApp/Models/InstanceInfoViewModel.cs:5-10 | Two view models with the same message have the same `HasError`, whatever their data fields. |
| `HomeModel.Empty` | Webinars/Webinar4/Apps/MyApp.WebApp/Models/HomeViewModel.cs:3-9 | A new home model has instance info, products and products error all absent, and `HasProductsError` false. |
| `HomeModel.HasProductsErrorIffMessage` | Webinars/Webinar4/Apps/MyApp.WebApp/Models/HomeViewModel.cs:8 | About the predicate `HomeModel.HomeViewModel.HasProductsError`, which models line 8 as `!Results.IsNullOrEmpty(productsErrorMessage)`. `HasProductsError` holds iff the message is present and non-empty. A null message or an empty one both mean no error. |
| `HomeModel.HasProductsErrorIgnoresData` | Webinars/Webinar4/Apps/MyApp.WebApp/Models/HomeViewModel.cs:5-8 | Two home models with the same products message have the same flag, whatever their instance info or products. |
| `HomeController.Index` | Webinars/Webinar4/Apps/MyApp.WebApp/Controllers/HomeController.cs:16-19 | The page model has every section absent and no products error. |
| `HomeController.CallInstanceApi` | Webinars/Webinar4/Apps/MyApp.WebApp/Controllers/HomeController.cs:21-57 | For every outcome, instance info is present and products and the products error are absent. Decoded data is used as is. A null decode leaves the empty record with no error. An HTTP error sets "HTTP error! status: " + the enum name, and a fault sets "Erro ao chamar API: " + the message, with the data fields absent and `HasError` true. |
| `HomeController.CallProductsApi` | Webinars/Webinar4/Apps/MyApp.WebApp/Controllers/HomeController.cs:59-95 | For every outcome, instance info is absent and the product list is present. The list is the decoded one on a non-null decode and empty otherwise. The matching prefixed message is set on an HTTP error or a fault. `HasProductsError` holds exactly when the call did not succeed. |

## Left out

- Hosting, routing, the `/api` path base, OpenAPI mapping and dependency injection are framework plumbing. Parsing `{id}` into an `int` is done by the router, so the handlers take an `int`.
- The real HTTP client calls and JSON (de)serialisation are library and network code. They are replaced by the `CallOutcome` datatype. A decoding exception is one of its `Fault` cases.
- Logging has side effects only.
- View rendering is left out, and so are the `Privacy` and `Error` actions, which only render views.
- `Guid.NewGuid`, `Environment.MachineName` and `DateTime.UtcNow` read the environment, so they are parameters.
- `async`/`await` and request concurrency belong to the framework.
- `InstanceApi.GetInstance`: requires the clock not to go backwards (`utcNow >= startupTime`). A negative uptime is not modelled.
- `Uptime.Components`: computes the components from whole seconds. This equals the tick-based `TimeSpan` components only for non-negative spans.
