# OpenWorld / ExpediaGroup Python SDK tooling — a Dafny model

This project models the logic at the core of the OpenWorld and ExpediaGroup Python
SDKs and of the tools that generate them and their documentation, and proves what
that logic promises. Each Dafny module follows one source file, or a few:

- **Request plumbing of the SDK cores.**
  - `OpenWorldApi`, `ExpediaGroupApi`, `FraudTestApi`: the `ApiClient` helpers. They fill in default headers, clean and serialise the caller's headers, and dispatch a response on its status code.
  - `HttpCommon`: the default headers the clients share.
  - `Log`: the logging helpers that mask credentials and format header blocks.
- **Authentication.**
  - `Authentication`: the OAuth bearer token of the fraud-prevention-test SDK, with its expiry checks and its `update`.
  - `RapidAuth`: the Rapid signature header and its token.
  - `Configuration`: the configuration objects that refuse missing credentials.
  - `Clock`: time as these modules read it.
- **Pagination.** `Pagination.Paginator` is a class whose fields the methods update. It yields the stored first page, then follows the `Link` header page by page, up to the announced total.
- **Generator naming.**
  - `SdkGenerator`: the Kotlin front end's package-name normalisation and the coordinates it sets on the configurator.
  - `SdkInfo`: the two `get_sdk` visitors that derive class names, namespaces, ids and packages.
- **Code-generation post-processing.**
  - `EgModelsVisitor`: discriminator mapping and copying, the ordering of `Union` aliases, error responses, and the removal of root models.
  - `ClientParser`: the argument lists of operations, with defaults filled in and duplicates merged.
  - `ClientModel`: how an argument is rendered.
  - `DatatypeManager`: the renaming of the pydantic v1 `regex` constraint.
- **Documentation generators.**
  - `EgDocsgenUtil`: whole-word replacement.
  - `EgDocsgenModel`: breadcrumbs, the class and attribute builders, submodules, and the master module list.
  - `EgDocsgenResolver`: the type-alias and cross-reference resolvers.
  - `DocsgenUtil`: the OpenWorld text helpers.
  - `OwDocsgenModels`: the OpenWorld definition models.
  - `OwDocsgenDocs`: the OpenWorld page components.
- **Fraud prevention v2 payment models.** `FraudModel`: the `dict()` overrides that mask card and account data, and the four constrained fields.
- **Shared helpers.**
  - `Wrappers`: `Option` and `Result`.
  - `Text`: Python `str` operations over `seq<char>`.
  - `PyDict`: an insertion-ordered Python `dict`, as a list of pairs with distinct keys.

Python `None` and raised exceptions are modelled with `Option` and `Result`. The
following are parameters of the operations that use them:

- the current time;
- fresh UUIDs;
- HTTP responses;
- the result of pydantic parsing;
- the parser's reference lookup.

Loops of the source are `method`s proved against a specification function, and the
properties are lemmas about those functions.

## Model

| member | source | states |
|---|---|---|
| Authentication.HttpBearerAuth.Str | generated/fraud-prevention-test/0.1.1/openworld-sdk-python-fraudpreventiontest-0.1.1/openworld/sdk/core/model/authentication.py:102-103 | the text starts with the `Bearer ` scheme and removing it gives back exactly the access token |
| Authentication.HttpBearerAuth.Call | generated/fraud-prevention-test/0.1.1/openworld-sdk-python-fraudpreventiontest-0.1.1/openworld/sdk/core/model/authentication.py:98-100 | the `Authorization` header becomes the bearer text, every other header is unchanged, and the header keys stay the same when it was already present |
| Authentication.Token.constructor | generated/fraud-prevention-test/0.1.1/openworld-sdk-python-fraudpreventiontest-0.1.1/openworld/sdk/core/model/authentication.py:51-59 | the token keeps the response, expires `expires_in` seconds after the given instant, and its bearer header carries the access token |
| Authentication.Token.Update | generated/fraud-prevention-test/0.1.1/openworld-sdk-python-fraudpreventiontest-0.1.1/openworld/sdk/core/model/authentication.py:85-87 | as written: the response and the expiry are replaced, the stored bearer header is left as it was |
| Authentication.Token.UpdateCorrected | generated/fraud-prevention-test/0.1.1/openworld-sdk-python-fraudpreventiontest-0.1.1/openworld/sdk/core/model/authentication.py:85-87 | as intended: response, expiry and bearer header all follow the new response, so the header is current again |
| Authentication.ExpiredIsAboutExpired | generated/fraud-prevention-test/0.1.1/openworld-sdk-python-fraudpreventiontest-0.1.1/openworld/sdk/core/model/authentication.py:79-83 | an expired token is also about to expire (the refresh gap is not negative) |
| Authentication.StaleHeaderAfterUpdate | generated/fraud-prevention-test/0.1.1/openworld-sdk-python-fraudpreventiontest-0.1.1/openworld/sdk/core/model/authentication.py:85-87 | after `update` to a different access token, the header sent still carries the old token, not the current one |
| Authentication.CurrentHeaderAfterUpdate | generated/fraud-prevention-test/0.1.1/openworld-sdk-python-fraudpreventiontest-0.1.1/openworld/sdk/core/model/authentication.py:85-87 | with the corrected update the header sent is the bearer text of the current token |
| Configuration.MissingOfChecked | expediagroup/sdk/core/configuration/auth_config.py:44-56 | a setting's name is reported missing exactly when that setting is empty; nothing is reported exactly when all three are set; the order is Key first and Auth_Endpoint last |
| Configuration.MissingOfCheckedIs | expediagroup/sdk/core/configuration/auth_config.py:45-53 | the missing list is one entry per empty setting, in the order Key, Secret, Auth_Endpoint |
| Configuration.NewAuthConfig | expediagroup/sdk/core/configuration/auth_config.py:28-56 | construction succeeds exactly when key, secret and endpoint are all non-empty, then keeps them unchanged; otherwise it raises with the missing names in order |
| Configuration.DefaultCredentialsRaise | expediagroup/sdk/core/configuration/auth_config.py:23-32 | the default credentials are empty, so `AuthConfig()` reports `Key` and `Secret` (and `Auth_Endpoint` when that is empty too) |
| Configuration.NewClientConfig | openworld/sdk/core/configuration/client_config.py:28-52 | an omitted endpoint takes its default; construction succeeds exactly when key, secret, auth endpoint and endpoint are non-empty; the authentication error wins over an empty endpoint |
| HttpCommon.ApiRequestDistinct | openworld/sdk/core/constant/header.py:23-39 | the default headers are `Content-type`, `Accept`, `Accept-Encoding`, in that order and without a repeated key |
| HttpCommon.FirstParseIsFirst | expediagroup/sdk/core/client/api.py:69-79 | the response object is `None` exactly when no model validates the body; otherwise it is the value of a model that validates it, and every earlier model rejected the body |
| OpenWorldApi.BuildResponse | openworld/sdk/core/client/api.py:49-60 | a status outside 200-299 raises, and only then. The error body is read before `HTTPStatus` sees the code: a body that `response.json()` or `Error.from_json` cannot read raises that error whatever the code; otherwise the exception carries the error body and the status when `HTTPStatus` knows the code (`HttpCommon.IsHttpStatus`), and `HTTPStatus`'s `ValueError` is raised otherwise. A 2xx with no model gives `None`; otherwise the model's result or its error |
| OpenWorldApi.SerializationHelper | openworld/sdk/core/client/api.py:118-123 | a datetime gives its ISO text, an Enum member its value, any other object `None` |
| OpenWorldApi.FillRequestHeaders | openworld/sdk/core/client/api.py:125-137 | every default header the caller lacks is added after the caller's headers; the caller's values win; no key repeats; no headers give exactly the defaults |
| OpenWorldApi.AddMissing | openworld/sdk/core/client/api.py:130-135 | the loop adds each missing default, keeping the caller's headers as a prefix; keys are the union; values as above |
| OpenWorldApi.MissingKeys | openworld/sdk/core/client/api.py:130-135 | a default header is added exactly when the caller did not give that key |
| OpenWorldApi.MissingGet | openworld/sdk/core/client/api.py:130-135 | an added header carries the default value |
| OpenWorldApi.FilledProperties | openworld/sdk/core/client/api.py:130-137 | the filled dict (caller's headers followed by the missing defaults) has distinct keys, the union of keys, the caller's values where given and the defaults elsewhere |
| ExpediaGroupApi.BuildResponse | expediagroup/sdk/core/client/api.py:49-79 | it raises exactly for a non-2xx status. The error body is read first, by the declared contract's model or by the generic `Error` model: an unreadable or invalid body raises that error whatever the code; otherwise a code that is no HTTP status raises `HTTPStatus`'s `ValueError`; otherwise the declared contract's exception carries its model of the body, or the generic exception does for an undeclared status. A 2xx body gives the first model that validates it |
| ExpediaGroupApi.FillRequestHeaders | expediagroup/sdk/core/client/api.py:143-151 | empty headers give the defaults; otherwise each key maps to the caller's value when given and to the default otherwise, no key repeats, and the default keys come first in their order |
| ExpediaGroupApi.Unwrap | expediagroup/sdk/core/model/api.py:31-46 | no headers give the empty dict; given headers are returned as they are, the JSON dump and reload of line 46 being read as the identity (exact for string, int, bool and `None` values) |
| ExpediaGroupApi.PrepareRequestHeaders | expediagroup/sdk/core/client/api.py:153-157 | the unwrapped caller headers merged over the defaults, or the defaults when there are none |
| FraudTestApi.BuildResponse | generated/fraud-prevention-test/0.1.0/openworld-sdk-python-fraudpreventiontest-0.1.0/openworld/sdk/core/client/api.py:52-70 | a non-2xx status raises, and only then, before any model is tried. The error body is read first: a body that `response.json()` or `Error.parse_obj` rejects raises that error whatever the code; otherwise it carries the error body and status, or `HTTPStatus`'s `ValueError` is raised when the code is no HTTP status. A 2xx body gives the first model that accepts it, or `None` |
| FraudTestApi.Serialized | generated/fraud-prevention-test/0.1.0/openworld-sdk-python-fraudpreventiontest-0.1.0/openworld/sdk/core/client/api.py:147-148 | a pydantic model, Enum member or UUID is replaced by its JSON text; any other value is sent unchanged |
| FraudTestApi.CleanedGet | generated/fraud-prevention-test/0.1.0/openworld-sdk-python-fraudpreventiontest-0.1.0/openworld/sdk/core/client/api.py:143-148 | the cleaned headers hold a key exactly when the caller gave it a truthy value, and then hold its serialised value |
| FraudTestApi.CleanedDistinct | generated/fraud-prevention-test/0.1.0/openworld-sdk-python-fraudpreventiontest-0.1.0/openworld/sdk/core/client/api.py:143-148 | the cleaned headers have no repeated key |
| FraudTestApi.PrepareRequestHeaders | generated/fraud-prevention-test/0.1.0/openworld-sdk-python-fraudpreventiontest-0.1.0/openworld/sdk/core/client/api.py:141-150 | truthy headers are sent serialised; falsy ones are dropped unless a default fills the key; defaults fill every key not given a truthy value; no other key appears |
| Log.MaskedByExactly | generated/fraud-prevention/0.3.0/openworld-sdk-python-fraudprevention-0.3.0/openworld/sdk/core/util/log.py:57-58 | the word loop finds a match exactly when some word of the list occurs in the key, ignoring case |
| Log.MaskedExactly | generated/fraud-prevention/0.3.0/openworld-sdk-python-fraudprevention-0.3.0/openworld/sdk/core/util/log.py:55-58 | a key is masked exactly when `key`, `secret`, `username` or `password` occurs in it, ignoring case |
| Log.FilteredIs | generated/fraud-prevention/0.3.0/openworld-sdk-python-fraudprevention-0.3.0/openworld/sdk/core/util/log.py:53-62 | the filtered dict has the input's keys in the input's order, and each value is the mask or the original value |
| Log.FilterCredentials | generated/fraud-prevention/0.3.0/openworld-sdk-python-fraudprevention-0.3.0/openworld/sdk/core/util/log.py:53-62 | same keys in the same order; a masked key shows `<-- omitted -->`, every other key keeps its value |
| Log.FilterEntry | generated/fraud-prevention/0.3.0/openworld-sdk-python-fraudprevention-0.3.0/openworld/sdk/core/util/log.py:57-61 | the inner loop assigns the mask to a key containing a filter word and the value otherwise, whichever word matches first |
| Log.SplitHeaderLines | generated/fraud-prevention/0.3.0/openworld-sdk-python-fraudprevention-0.3.0/openworld/sdk/core/util/log.py:24-25 | cut at its newlines, the header block gives back one `\t\tkey: value` line per header, in order, and an empty tail |
| Log.HeaderLinesEnd | generated/fraud-prevention/0.3.0/openworld-sdk-python-fraudprevention-0.3.0/openworld/sdk/core/util/log.py:24-28 | a non-empty header block already ends with a newline, so nothing more is added |
| Log.HeadersLog | generated/fraud-prevention/0.3.0/openworld-sdk-python-fraudprevention-0.3.0/openworld/sdk/core/util/log.py:21-28 | the block is one line per header, or a lone newline when there is none, and always ends with a newline |
| Log.ResponseLog | generated/fraud-prevention/0.3.0/openworld-sdk-python-fraudprevention-0.3.0/openworld/sdk/core/util/log.py:20-34 | the response log starts with the `Response:` head, followed by the header block and the tab-indented body, in that order |
| Log.RequestLog | generated/fraud-prevention/0.3.0/openworld-sdk-python-fraudprevention-0.3.0/openworld/sdk/core/util/log.py:37-50 | the request log starts with the endpoint and the upper-cased method, then the request's header block and body, and ends with exactly the text `ResponseLog` gives for the same response and templates |
| RapidAuth.RapidAuthHeader.Str | openworld/sdk/core/model/rapid_auth.py:40-41 | the header text is `EAN APIKey=<key>,Signature=<signature>,timestamp=<timestamp>`; `RapidAuth.ParseStr` shows it can be read back |
| RapidAuth.RapidAuthHeader.Call | openworld/sdk/core/model/rapid_auth.py:36-38 | the `Authorization` header becomes the header text; every other header is unchanged |
| RapidAuth.ParseStr | openworld/sdk/core/model/rapid_auth.py:40-41 | for comma-free fields, parsing the header text gives back exactly the key, signature and timestamp |
| RapidAuth.RapidToken.constructor | openworld/sdk/core/model/rapid_auth.py:48-52 | the token holds the header and expires the 300-second life span after the given instant |
| RapidAuth.RapidToken.Update | openworld/sdk/core/model/rapid_auth.py:54-56 | the token holds the new header, its life span restarts, its access token is the new header text, and it is not about to expire |
| RapidAuth.RapidToken.AccessToken | openworld/sdk/core/model/rapid_auth.py:64-66 | the access token is Rapid header text, and parsing it gives back the stored header |
| RapidAuth.ExpiredIsAboutExpired | openworld/sdk/core/model/rapid_auth.py:58-62 | an expired token is also about to expire |
| RapidAuth.FreshToken | openworld/sdk/core/model/rapid_auth.py:48-62 | from storing until the refresh gap before the end of its life span, a token is neither expired nor about to expire |
| RapidAuth.FiveSecondsLeft | openworld/sdk/core/model/rapid_auth.py:58-62 | five seconds before its expiry a token is about to expire but not expired |
| RapidAuth.FiveSecondsOver | openworld/sdk/core/model/rapid_auth.py:58-62 | five seconds after its expiry a token is expired and about to expire |
| Pagination.HeaderLookup | openworld/sdk/core/client/pagination.py:103 | a response header is found exactly when some header name equals the asked name ignoring case, and its value is the value of such a header |
| Pagination.LookupIgnoresCase | openworld/sdk/core/client/pagination.py:131 | two spellings of a name that differ only in case read the same header |
| Pagination.LookupExact | openworld/sdk/core/client/pagination.py:131 | when no two header names differ only in case, a name spelled exactly reads as in a plain dict |
| Pagination.ExtractTotal | openworld/sdk/core/client/pagination.py:127-131 | no headers or no total header (in any case) give 0; it raises exactly when the total header is present and `int()` rejects it, with `ValueError` carrying its text; a present header that parses gives its value |
| Pagination.ExtractTotalIgnoresCase | openworld/sdk/core/client/pagination.py:127-131 | the total is the same whatever the case of the header name, so `pagination-total-results` is read as the constant's header |
| Pagination.ExtractShownTotal | openworld/sdk/core/client/pagination.py:127-131 | a total header holding the decimal text of `n` gives back `n` |
| Pagination.NextEndpoint | openworld/sdk/core/client/pagination.py:105-119 | the update stops exactly when the page is out of `1..total`, the headers are empty, or a page other than the last lacks the link header under any case of its name; otherwise the strategy's link, or the first endpoint for the last page |
| Pagination.WithTransactionId | openworld/sdk/core/client/pagination.py:121-125 | empty request headers stay empty; otherwise `transaction-id` is the fresh id and every other header is unchanged |
| Pagination.GeneratorError | openworld/sdk/core/client/pagination.py:71-95 | a walk that ends normally raises nothing; any `StopIteration` escaping the generator becomes `RuntimeError` (PEP 479) |
| Pagination.IntendedError | openworld/sdk/core/client/pagination.py:71-95 | as intended, only strategy, `ValueError` and `RuntimeError` failures escape; `StopIteration` ends the iteration quietly |
| Pagination.Paginator.constructor | openworld/sdk/core/client/pagination.py:28-57 | the paginator keeps the request headers, the endpoint (as both next and first endpoint), the first response's headers and body, the total, the link header and the strategy |
| Pagination.Paginator.Create | openworld/sdk/core/client/pagination.py:28-62 | a bad total raises out of the constructor; otherwise the update for page 2 decides: it stops (raising `StopIteration`), fails in the strategy, or moves on, and then the transaction id is refreshed |
| Pagination.Paginator.UpdateNextPageEndpoint | openworld/sdk/core/client/pagination.py:105-119 | the next endpoint becomes the result of `NextEndpoint`; a stop or strategy failure raises and leaves the endpoint unchanged |
| Pagination.Paginator.UpdateTransactionId | openworld/sdk/core/client/pagination.py:121-125 | the request headers become `WithTransactionId` of the old ones |
| Pagination.Paginator.YieldPages | openworld/sdk/core/client/pagination.py:79-95 | the loop yields exactly the pages, sends exactly the requests and ends in exactly the state that `AllPages` describes |
| Pagination.Paginator.GetPages | openworld/sdk/core/client/pagination.py:71-95 | as written: the pages and requests of `AllPages`, and an escaping `StopIteration` turned into `RuntimeError` |
| Pagination.Paginator.GetPagesCorrected | openworld/sdk/core/client/pagination.py:71-95 | as intended: the same pages and requests, and an iteration that ends quietly where `StopIteration` was raised |
| Pagination.Paginator.WalkBounded | openworld/sdk/core/client/pagination.py:82-95 | from page `k` at most one page per remaining page number is yielded, and one request is sent per page tried |
| Pagination.Paginator.PagesStartWithFirstPage | openworld/sdk/core/client/pagination.py:79-95 | with no headers or a zero total nothing is yielded and `StopIteration` is raised; otherwise the stored first page comes first, without a request, and at most `total` pages are yielded |
| Pagination.Paginator.WalkFollowsLinks | openworld/sdk/core/client/pagination.py:87-119 | each request after the first goes to the link extracted from the previous response, and a complete walk leaves the next endpoint at the first page's endpoint |
| Pagination.Paginator.MissingLinkStopsIteration | openworld/sdk/core/client/pagination.py:105-114 | with three or more results and no link header on page 2, only the first page is yielded, after one request; as written this raises `RuntimeError`, as intended nothing |
| DatatypeManager.MigrateDatatypeConstraints | expediagroup/sdk/generator/client/datatype_manager.py:41-59 | the loop over the mapping gives exactly the specified migration of a copy, so the caller's dict is unchanged |
| DatatypeManager.MigratedRegex | expediagroup/sdk/generator/client/datatype_manager.py:27 | with its one entry, the mapping is the move of `regex` to `pattern` |
| DatatypeManager.MigrationGet | expediagroup/sdk/generator/client/datatype_manager.py:52-59 | a truthy `regex` is read under `pattern` afterwards and `regex` is gone, every other key reads as before, and keys stay distinct; a missing or falsy `regex` leaves the dict unchanged |
| DatatypeManager.MigrationIdempotent | expediagroup/sdk/generator/client/datatype_manager.py:52-59 | migrating an already migrated dict changes nothing |
| ClientModel.ParamTypeOf | expediagroup/sdk/generator/client/model.py:22-27 | a member found by value has that value |
| ClientModel.ParamTypeRoundTrip | expediagroup/sdk/generator/client/model.py:22-27 | the five members have distinct values: looking up a member's value gives the member back |
| ClientModel.RenderedShape | expediagroup/sdk/generator/client/model.py:37-41 | the argument text starts with `name: type`, and is exactly that when and only when the argument is required and has no default |
| SdkInfo.UpperFirstsChars | expediagroup/sdk/generator/client/visitors/sdk_info.py:29 | upper-casing the first character of each run keeps the length of the joined runs, changes characters only by upper-casing, and never starts with a lower-case letter |
| SdkInfo.EgClassnameLetters | expediagroup/sdk/generator/client/visitors/sdk_info.py:29 | the class name is the namespace's alphanumeric characters, in order, each kept or upper-cased, and lower-cases to the same text |
| SdkInfo.SpacedRest | expediagroup/sdk/generator/client/visitors/sdk_info.py:31 | after the first character, every upper-case letter has a space before it, and every inserted space is followed by an upper-case letter |
| SdkInfo.Spaced | expediagroup/sdk/generator/client/visitors/sdk_info.py:31 | `api` starts with the class name's first character, and every later upper-case letter follows a space that was inserted for it |
| SdkInfo.SpacedRemoved | expediagroup/sdk/generator/client/visitors/sdk_info.py:31 | removing the spaces from `api` gives back the class name |
| SdkInfo.EgGetSdk | expediagroup/sdk/generator/client/visitors/sdk_info.py:25-41 | the class name is `EgClassname` of the namespace (its alphanumeric runs, each with the first character upper-cased, as `EgClassnameLetters` states) plus `Client`; `api` is that class name spaced out before each later upper-case letter, and the class name is `api` without spaces plus `Client`; the namespace is the lower-cased class name, which is the namespace's alphanumerics lower-cased (lower-case letters and digits only); id and package are the prefixes plus the namespace; the version is passed through |
| SdkInfo.CapitalizedLower | openworld/sdk/generator/client/visitors/sdk_info.py:30 | capitalising each word changes only case: lower-cased, the joined words read the same |
| SdkInfo.CapitalizeLower | openworld/sdk/generator/client/visitors/sdk_info.py:30 | capitalising one word changes only the case of its characters |
| SdkInfo.OwGetSdk | openworld/sdk/generator/client/visitors/sdk_info.py:25-37 | `api` is the configured namespace; the namespace is its letters lower-cased (lower-case letters only); the class name is its letter runs capitalised plus `Client`; id and package are the prefixes plus the namespace |
| SdkGenerator.KeepPackageChars | generator/openapi/src/main/kotlin/com/expediagroup/sdk/generators/openapi/OpenApiSdkGenerator.kt:68 | the result is no longer than the input and holds only `[a-z0-9]` |
| SdkGenerator.KeepPackageCharsOnPackageName | generator/openapi/src/main/kotlin/com/expediagroup/sdk/generators/openapi/OpenApiSdkGenerator.kt:68 | a name made only of `[a-z0-9]` passes the filter unchanged |
| SdkGenerator.NormalizePackageName | generator/openapi/src/main/kotlin/com/expediagroup/sdk/generators/openapi/OpenApiSdkGenerator.kt:68 | the package name holds only `[a-z0-9]` |
| SdkGenerator.NormalizeIsLoweredAlnum | generator/openapi/src/main/kotlin/com/expediagroup/sdk/generators/openapi/OpenApiSdkGenerator.kt:68 | the package name is exactly the namespace's ASCII letters and digits, in order, lower-cased |
| SdkGenerator.NormalizeIdempotent | generator/openapi/src/main/kotlin/com/expediagroup/sdk/generators/openapi/OpenApiSdkGenerator.kt:68 | normalising a normalised package name changes nothing |
| SdkGenerator.CodegenConfigurator.constructor | generator/openapi/src/main/kotlin/com/expediagroup/sdk/generators/openapi/OpenApiSdkGenerator.kt:66-99 | the configurator holds the settings it is given |
| SdkGenerator.OpenApiSdkGenerator.constructor | generator/openapi/src/main/kotlin/com/expediagroup/sdk/generators/openapi/OpenApiSdkGenerator.kt:52-62 | the command holds its four options, each possibly not given |
| SdkGenerator.OpenApiSdkGenerator.Configure | generator/openapi/src/main/kotlin/com/expediagroup/sdk/generators/openapi/OpenApiSdkGenerator.kt:64-99 | configuring succeeds exactly when all four options are given and the spec file is prepared; the first missing option (`namespace`, then `inputFile`) or the spec failure is the error otherwise |
| SdkGenerator.OpenApiSdkGenerator.Run | generator/openapi/src/main/kotlin/com/expediagroup/sdk/generators/openapi/OpenApiSdkGenerator.kt:64-115 | a configurator is made exactly when configuring succeeds, and then holds every setting; generation happens exactly when configuring and the generator both succeed; every failure prints the failure message, the exception's message and its stack trace (an input), and nothing escapes |
| SdkGenerator.Apply | generator/openapi/src/main/kotlin/com/expediagroup/sdk/generators/openapi/OpenApiSdkGenerator.kt:66-99 | a fresh configurator with generator `python`, the template dir, the spec and output paths, the three global properties, suffix and packages, the additional properties, and artifact coordinates built from the package name |
| SdkGenerator.AdditionalPropertiesOrder | generator/openapi/src/main/kotlin/com/expediagroup/sdk/generators/openapi/OpenApiSdkGenerator.kt:87-97 | the additional properties are set in the order `enumPropertyNaming`, `sortParamsByRequiredFlag`, `normalizedNamespace`, `projectName`, `namespace` |
| EgDocsgenUtil.ToMarkdownFileRef | expediagroup/sdk/docsgen/util.py:8-17 | the link is the file name in brackets followed by the same name with `.md` in parentheses |
| EgDocsgenUtil.ParseMethodDescription | expediagroup/sdk/docsgen/util.py:20-37 | an empty or missing description gives `""`; otherwise the result is the long or the short description, at least as long as either, and the long one on a tie |
| EgDocsgenUtil.ReplaceWordResult | expediagroup/sdk/docsgen/util.py:64-65 | a word longer than the text leaves the text unchanged |
| EgDocsgenUtil.ErrorSticks | expediagroup/sdk/docsgen/util.py:70-82 | once an iteration raises, later matches do not change the outcome |
| EgDocsgenUtil.ReplaceWordLoop | expediagroup/sdk/docsgen/util.py:53-84 | the method returns or raises exactly what the specification of `replace_word` (as written or corrected) gives |
| EgDocsgenUtil.ReplaceMatchesLoop | expediagroup/sdk/docsgen/util.py:67-84 | the loop over the match starts, each moved by the accumulated length change, gives exactly the specified final text or error |
| EgDocsgenUtil.ReplaceWord | expediagroup/sdk/docsgen/util.py:53-84 | `replace_word` as written, including the `IndexError` its boundary tests can raise |
| EgDocsgenUtil.ReplaceWordCorrected | expediagroup/sdk/docsgen/util.py:53-84 | the corrected `replace_word` always returns a text, and it is the corrected specification's result |
| EgDocsgenUtil.AbsentWordUnchanged | expediagroup/sdk/docsgen/util.py:64-84 | a text without the word is returned unchanged |
| EgDocsgenUtil.SingleMatch | expediagroup/sdk/docsgen/util.py:70-82 | with a single match, the result is that one step: replaced, kept, or raised |
| EgDocsgenUtil.SpliceAt | expediagroup/sdk/docsgen/util.py:73-81 | each replacing branch turns `pre + word + post` into `pre + replacement + post` |
| EgDocsgenUtil.WholeWordReplaced | expediagroup/sdk/docsgen/util.py:70-82 | a single word at the start, the end or the middle, with no letter or digit beside it, is replaced |
| EgDocsgenUtil.EmbeddedWordKept | expediagroup/sdk/docsgen/util.py:70-82 | a single word with a letter or digit on both sides is kept |
| EgDocsgenUtil.WholeTextRaises | expediagroup/sdk/docsgen/util.py:72 | as written, a text that is exactly the word raises `IndexError` |
| EgDocsgenUtil.WholeTextReplaced | expediagroup/sdk/docsgen/util.py:72-74 | corrected, a text that is exactly the word becomes the replacement |
| EgDocsgenUtil.DigitBeforeFinalWordRaises | expediagroup/sdk/docsgen/util.py:76-80 | as written, a final word right after a digit passes the `isalpha` test and then reads past the end: `IndexError` |
| EgDocsgenUtil.DigitBeforeMiddleWordReplaced | expediagroup/sdk/docsgen/util.py:80-82 | as written, a word inside the text right after a digit is replaced, since only a letter before it counts |
| EgDocsgenUtil.DigitBeforeMiddleWordKept | expediagroup/sdk/docsgen/util.py:80-82 | corrected, a word inside the text right after a digit is kept, whatever follows it |
| EgDocsgenUtil.DigitBeforeFinalWordKept | expediagroup/sdk/docsgen/util.py:76-80 | corrected, a final word right after a digit is embedded and kept |
| EgDocsgenUtil.CorrectedStepSafe | expediagroup/sdk/docsgen/util.py:70-82 | the corrected loop body never raises at a match inside the text, and each replacement changes the length by `len(replacement) - len(word)` |
| EgDocsgenUtil.CorrectedTestsSucceed | expediagroup/sdk/docsgen/util.py:72-80 | the corrected boundary tests at a match inside the text never raise |
| EgDocsgenUtil.SafePrefixSucceeds | expediagroup/sdk/docsgen/util.py:67-82 | with a safe body, every prefix of the loop succeeds, the text grows by the offset, and every later match start stays inside the text |
| EgDocsgenUtil.CorrectedNeverFails | expediagroup/sdk/docsgen/util.py:53-84 | the corrected `replace_word` never raises |
| EgDocsgenResolver.Replaced | expediagroup/sdk/docsgen/resolver.py:58 | the replacement step is the corrected `replace_word`, which always returns a text |
| EgDocsgenResolver.VarsPass | expediagroup/sdk/docsgen/resolver.py:49-60 | the changed-flag ends false only if it started false and the text is unchanged; once true it stays true |
| EgDocsgenResolver.VarsPassConcat | expediagroup/sdk/docsgen/resolver.py:48-60 | a pass over two runs of variables is the pass over the first, then over the second, unless the first returns early |
| EgDocsgenResolver.ModulesPassFlat | expediagroup/sdk/docsgen/resolver.py:48-60 | the nested module and variable loops act like one loop over all variables, module by module |
| EgDocsgenResolver.ValuedOnly | expediagroup/sdk/docsgen/resolver.py:50-52 | the valued variables are a selection of the input, each with a non-empty value |
| EgDocsgenResolver.EmptyValuesIgnored | expediagroup/sdk/docsgen/resolver.py:50-52 | variables whose value is `None` or empty play no part in a pass |
| EgDocsgenResolver.AliasResolutionIgnoresEmpty | expediagroup/sdk/docsgen/resolver.py:37-62 | modules with the same valued variables, in the same order, resolve every text alike |
| EgDocsgenResolver.SamePass | expediagroup/sdk/docsgen/resolver.py:48-60 | modules with the same valued variables make the same pass |
| EgDocsgenResolver.VarsPassExact | expediagroup/sdk/docsgen/resolver.py:54-55 | a variable whose name is the whole text, with no earlier valued name occurring in the text, makes the pass return its value |
| EgDocsgenResolver.ExactNameResolvesToValue | expediagroup/sdk/docsgen/resolver.py:54-55 | resolving a variable's exact name resolves its value, with one nested call fewer |
| EgDocsgenResolver.VarsPassUntouched | expediagroup/sdk/docsgen/resolver.py:49-60 | a pass over variables none of whose names occur in the text leaves the text and the flag unchanged |
| EgDocsgenResolver.NoAliasIsFixpoint | expediagroup/sdk/docsgen/resolver.py:37-62 | a text in which no valued variable's name occurs resolves to itself |
| EgDocsgenResolver.RecursesOnlyOnChange | expediagroup/sdk/docsgen/resolver.py:60-62 | resolution recurses only when a replacement changed the text, and otherwise returns the text it was given |
| EgDocsgenResolver.Reference | expediagroup/sdk/docsgen/resolver.py:96 | the class reference is the Markdown file link of the class name |
| EgDocsgenResolver.ClassesPassConcat | expediagroup/sdk/docsgen/resolver.py:94-101 | a pass over two runs of classes is the pass over the first, then over the second, unless the first returns early |
| EgDocsgenResolver.RefModulesPassFlat | expediagroup/sdk/docsgen/resolver.py:94-101 | the nested module and class loops act like one loop over all classes |
| EgDocsgenResolver.ClassesPassExact | expediagroup/sdk/docsgen/resolver.py:98-99 | a class whose name is the whole text, with no earlier class name occurring in it, gives its link |
| EgDocsgenResolver.ExactClassNameLinks | expediagroup/sdk/docsgen/resolver.py:83-103 | when alias resolution leaves a class's exact name alone, the name becomes `[Name](Name.md)` |
| EgDocsgenResolver.BaseResolve | expediagroup/sdk/docsgen/resolver.py:25-31 | the base resolver returns `None` |
| EgDocsgenResolver.TypeAliasResolver.constructor | expediagroup/sdk/docsgen/resolver.py:17-23 | the resolver keeps the modules |
| EgDocsgenResolver.TypeAliasResolver.Resolve | expediagroup/sdk/docsgen/resolver.py:37-62 | the nested loops and the recursive calls give exactly the specified alias resolution, or `RecursionError` when the nesting runs out; words are replaced by the corrected `replace_word` (see Left out) |
| EgDocsgenResolver.CrossReferenceResolver.constructor | expediagroup/sdk/docsgen/resolver.py:74-81 | the resolver keeps the modules and builds a type-alias resolver over the same modules |
| EgDocsgenResolver.CrossReferenceResolver.Resolve | expediagroup/sdk/docsgen/resolver.py:83-103 | type aliases are resolved first, then class names become links, exactly as specified, with the corrected `replace_word` (see Left out) |
| EgDocsgenModel.ChainOf | expediagroup/sdk/docsgen/model.py:71-74 | the chain of a breadcrumb is non-empty and ends with its own document name |
| EgDocsgenModel.Refs | expediagroup/sdk/docsgen/model.py:69-73 | one Markdown file link per name, in order |
| EgDocsgenModel.BreadcrumbsString | expediagroup/sdk/docsgen/model.py:62-76 | the parent-walking loop gives the links of the whole chain, root first, joined by ` / ` |
| EgDocsgenModel.TrailExtends | expediagroup/sdk/docsgen/model.py:69-76 | a breadcrumb without a parent shows only its own link; a child shows its parent's trail, ` / `, and its own link |
| EgDocsgenModel.ChainStartsAtRoot | expediagroup/sdk/docsgen/model.py:71-74 | the chain starts with the document name of the root breadcrumb |
| EgDocsgenModel.TrailEnds | expediagroup/sdk/docsgen/model.py:69-76 | the trail starts with the root's link and ends with the document's own link |
| EgDocsgenModel.AttributeFrom | expediagroup/sdk/docsgen/model.py:145-168 | `None` raises, and only `None`; the name and default are copied; a missing or empty datatype becomes `typing.Any`, otherwise it is kept; the attribute is optional exactly when its datatype starts with `Optional` |
| EgDocsgenModel.InsertPermutes | expediagroup/sdk/docsgen/model.py:309 | inserting an attribute adds exactly that attribute |
| EgDocsgenModel.InsertSorted | expediagroup/sdk/docsgen/model.py:309 | inserting into a list sorted by name keeps it sorted |
| EgDocsgenModel.InsertStable | expediagroup/sdk/docsgen/model.py:309 | an inserted attribute lands after every attribute of the same name |
| EgDocsgenModel.SortByName | expediagroup/sdk/docsgen/model.py:309 | the sorted attributes are a permutation of the input |
| EgDocsgenModel.SortByNameSorted | expediagroup/sdk/docsgen/model.py:309 | the sorted attributes are in non-decreasing name order |
| EgDocsgenModel.SortStable | expediagroup/sdk/docsgen/model.py:309 | the sort is stable: attributes of the same name keep their relative order |
| EgDocsgenModel.FirstInit | expediagroup/sdk/docsgen/model.py:291-299 | the index found is the first method whose name contains `__init__`, or -1 when none does |
| EgDocsgenModel.ClassFrom | expediagroup/sdk/docsgen/model.py:266-319 | `None` raises, and only `None`; the name and bases are copied; the constructor is named after the class; the attributes are a permutation of the class's variables |
| EgDocsgenModel.ClassAttributesSorted | expediagroup/sdk/docsgen/model.py:309 | the class's attributes come out sorted by name |
| EgDocsgenModel.ClassConstructor | expediagroup/sdk/docsgen/model.py:286-307 | the first `__init__` method becomes the constructor, renamed, and leaves the methods; without one the methods stay and the constructor takes the attributes (none for an Enum), with empty description and return type |
| EgDocsgenModel.ClassFromByFirstInit | expediagroup/sdk/docsgen/model.py:286-307 | the class built in terms of the index of the first `__init__` method |
| EgDocsgenModel.EnumConstructorTakesNothing | expediagroup/sdk/docsgen/model.py:289-307 | an Enum without an `__init__` method gets a constructor without arguments |
| EgDocsgenModel.Module.constructor | expediagroup/sdk/docsgen/model.py:370-377 | a new module keeps its name, classes and variables and has no submodules |
| EgDocsgenModel.Module.SyncSubmodules | expediagroup/sdk/docsgen/model.py:339-351 | the module's submodules are extended with exactly the direct children among the given modules, in order |
| EgDocsgenModel.SubmoduleName | expediagroup/sdk/docsgen/model.py:346-351 | a module is a direct child exactly when its name is the parent's name, a dot, and a name without dots |
| EgDocsgenModel.SubmodulesExactly | expediagroup/sdk/docsgen/model.py:346-351 | the modules appended are exactly the given modules that are direct children, and never the module itself |
| EgDocsgenModel.ByName | expediagroup/sdk/docsgen/model.py:418 | the modules keyed by name have no repeated key |
| EgDocsgenModel.ParentFlags | expediagroup/sdk/docsgen/model.py:422-424 | the `has_parent` dict has one entry per module name, in the order of the names |
| EgDocsgenModel.ParseMasterModules | expediagroup/sdk/docsgen/model.py:407-430 | the three steps give exactly the specified master modules, whose members and order `MasterModulesExactly` and `MasterModulesInOrder` state |
| EgDocsgenModel.IndexByName | expediagroup/sdk/docsgen/model.py:418 | the dict comprehension gives the specified dict of modules by name |
| EgDocsgenModel.FlagParents | expediagroup/sdk/docsgen/model.py:422-424 | the first loop gives the specified `has_parent` flags |
| EgDocsgenModel.PickFlagged | expediagroup/sdk/docsgen/model.py:426-428 | the second loop picks the flagged modules, in the order of the flags |
| EgDocsgenModel.ByNameKeys | expediagroup/sdk/docsgen/model.py:418 | a name is a key exactly when some module has it |
| EgDocsgenModel.ByNameValue | expediagroup/sdk/docsgen/model.py:418 | the entry of a name is the last module of that name |
| EgDocsgenModel.PickedEntries | expediagroup/sdk/docsgen/model.py:422-428 | a module is picked exactly when it is the entry of a name whose parent name is also a key |
| EgDocsgenModel.MasterModulesExactly | expediagroup/sdk/docsgen/model.py:407-430 | the master document lists exactly the last module of each name whose parent name (the name itself when it has no dot) is a module's name; their order is stated by `MasterModulesInOrder` |
| EgDocsgenModel.ByNameKeysInOrder | expediagroup/sdk/docsgen/model.py:418 | the dict comprehension's keys are the module names, each once, in the order of its first occurrence |
| EgDocsgenModel.ByNameIsLastNamed | expediagroup/sdk/docsgen/model.py:418 | under each name the dict holds the last module of that name, and nothing under a name no module has |
| EgDocsgenModel.PickedInOrder | expediagroup/sdk/docsgen/model.py:422-428 | walking any key list, the flag loop and the pick loop keep, in key order, the module of each key whose parent name is a key |
| EgDocsgenModel.MasterModulesInOrder | expediagroup/sdk/docsgen/model.py:407-430 | the master modules come in the order of their names' first occurrence in the input, each as the last module of its name, those without a parent module dropped |
| EgDocsgenModel.TopLevelListed | expediagroup/sdk/docsgen/model.py:422-428 | the last module of a name without a dot is always listed in the master document |
| EgModelsVisitor.AliasStringParts | expediagroup/sdk/generator/client/visitors/models.py:52-53 | an alias prints as the parent name, ` = Union[`, the children joined by commas and `]`; splitting the bracketed part on commas gives back the children |
| EgModelsVisitor.Children | expediagroup/sdk/generator/client/visitors/models.py:94-105 | a parent has no more children than there are models |
| EgModelsVisitor.ChildrenAre | expediagroup/sdk/generator/client/visitors/models.py:94-105 | a class name is a child of a parent exactly when some model with that class name has the parent as its base class |
| EgModelsVisitor.SelfMappingGet | expediagroup/sdk/generator/client/visitors/models.py:121-124 | the default mapping maps a name to itself when it is among the names and has no entry otherwise |
| EgModelsVisitor.SelfMappingGetAll | expediagroup/sdk/generator/client/visitors/models.py:121-124 | the default mapping maps every child to itself and nothing else |
| EgModelsVisitor.SelfMappingKeys | expediagroup/sdk/generator/client/visitors/models.py:121-124 | for distinct children the keys of the default mapping are the children, in model order |
| EgModelsVisitor.ParseRawDiscriminator | expediagroup/sdk/generator/client/visitors/models.py:108-126 | the discriminator keeps the owner and property name; a given non-empty mapping is kept; a missing or empty one becomes each child of the owner mapped to itself |
| EgModelsVisitor.ShortRefShape | expediagroup/sdk/generator/client/visitors/models.py:152-157 | a value whose stripped text does not start with `#/` is kept; one that does is reduced to its last path segment, which holds no `/` |
| EgModelsVisitor.RewriteStep | expediagroup/sdk/generator/client/visitors/models.py:152-157 | one turn of the rewrite loop sets the current key to its rewritten value and keeps the earlier keys rewritten |
| EgModelsVisitor.RewrittenValues | expediagroup/sdk/generator/client/visitors/models.py:152-157 | after the first k keys, exactly those keys hold rewritten values and the rest hold their old ones |
| EgModelsVisitor.ShortenedValues | expediagroup/sdk/generator/client/visitors/models.py:152-157 | the shortened mapping has the same keys in the same order, each value reduced by the `#/` rule |
| EgModelsVisitor.ShortenMapping | expediagroup/sdk/generator/client/visitors/models.py:152-157 | the rewrite loop over the mapping gives the specified shortened mapping |
| EgModelsVisitor.ParseDiscriminators | expediagroup/sdk/generator/client/visitors/models.py:129-163 | the loop over the models gives the specified discriminators, in model order |
| EgModelsVisitor.DiscriminatorsOwned | expediagroup/sdk/generator/client/visitors/models.py:141-159 | every discriminator belongs to a model with a reference path, at least one child and a raw model with a discriminator, and carries that raw model's property name |
| EgModelsVisitor.FieldsNamed | expediagroup/sdk/generator/client/visitors/models.py:177 | the fields kept are exactly the parent's fields with the discriminator's property name |
| EgModelsVisitor.EntriesOf | expediagroup/sdk/generator/client/visitors/models.py:176 | one entry per mapping item, in order, carrying the discriminator's property name and owner |
| EgModelsVisitor.ApplyDiscriminatorsToModels | expediagroup/sdk/generator/client/visitors/models.py:166-190 | the nested loops apply every mapping entry of every discriminator in order, a missing model raising |
| EgModelsVisitor.DiscriminatorFieldAdded | expediagroup/sdk/generator/client/visitors/models.py:176-190 | an entry changes only the target model; unless the parent has exactly one field of the property's name nothing changes; otherwise the target gets one field appended, with that name, type `Literal['value']`, required, and the quoted value as its default |
| EgModelsVisitor.NewEntriesShape | expediagroup/sdk/generator/client/visitors/models.py:222-225 | the order entries recorded for children all carry the alias's order, and every child not yet recorded gets one |
| EgModelsVisitor.BuildAliases | expediagroup/sdk/generator/client/visitors/models.py:209-227 | one alias per owner |
| EgModelsVisitor.InsertByOrder | expediagroup/sdk/generator/client/visitors/models.py:229 | inserting an alias adds exactly that alias |
| EgModelsVisitor.InsertSorted | expediagroup/sdk/generator/client/visitors/models.py:229 | inserting into aliases sorted by order keeps them sorted |
| EgModelsVisitor.InsertBounded | expediagroup/sdk/generator/client/visitors/models.py:229 | inserting keeps every order above a common lower bound |
| EgModelsVisitor.SortByOrder | expediagroup/sdk/generator/client/visitors/models.py:229 | the sorted aliases are a permutation of the input |
| EgModelsVisitor.SortByOrderSorted | expediagroup/sdk/generator/client/visitors/models.py:229 | the sorted aliases are in non-decreasing order |
| EgModelsVisitor.ParseSortedAliases | expediagroup/sdk/generator/client/visitors/models.py:193-229 | the loop builds one alias per discriminator owner and returns them sorted by order |
| EgModelsVisitor.BuildAliasesStep | expediagroup/sdk/generator/client/visitors/models.py:209-227 | one turn of the loop appends the alias of the current owner and records its order |
| EgModelsVisitor.BuildAliasesDone | expediagroup/sdk/generator/client/visitors/models.py:209-227 | when the owners are exhausted the aliases built are all of them |
| EgModelsVisitor.Owners | expediagroup/sdk/generator/client/visitors/models.py:209 | the owners of the discriminators, in order |
| EgModelsVisitor.BuiltAliases | expediagroup/sdk/generator/client/visitors/models.py:209-227 | the alias at position k names the k-th owner, lists its children followed by its `Generic` name, and has order `current + k`, `-(current + k)` or `current + k - 1` |
| EgModelsVisitor.UpdateRecords | expediagroup/sdk/generator/client/visitors/models.py:222-225 | a name recorded before, or given a non-zero entry, is recorded after the update |
| EgModelsVisitor.RememberedRecords | expediagroup/sdk/generator/client/visitors/models.py:222-225 | after an alias is recorded, its parent and every child are recorded |
| EgModelsVisitor.BuildAliasesTail | expediagroup/sdk/generator/client/visitors/models.py:209-227 | the aliases after the first are those built from the remaining owners with the first alias recorded |
| EgModelsVisitor.MetBeforeTail | expediagroup/sdk/generator/client/visitors/models.py:210-213 | an owner met before was met as the first alias's parent, child or `Generic` name, or among the later ones |
| EgModelsVisitor.RecordedFirst | expediagroup/sdk/generator/client/visitors/models.py:213 | an owner that is already recorded gets the order `-current` |
| EgModelsVisitor.RecordedAfterFirst | expediagroup/sdk/generator/client/visitors/models.py:213-225 | an owner recorded before position i stays recorded once the first alias is built |
| EgModelsVisitor.RecordedOwnerGoesFirst | expediagroup/sdk/generator/client/visitors/models.py:213 | an owner recorded at position i gets the negative order `-(current + i)` |
| EgModelsVisitor.RecordedOwnerSortsBefore | expediagroup/sdk/generator/client/visitors/models.py:210-213 | an owner that appeared in an earlier alias gets an order below every earlier alias, so it sorts before the aliases that depend on it |
| EgModelsVisitor.SortedAliases | expediagroup/sdk/generator/client/visitors/models.py:215-229 | the returned aliases are sorted by order, one per owner, and each one's children end with the parent name followed by `Generic` |
| EgModelsVisitor.ParseCodes | expediagroup/sdk/generator/client/visitors/models.py:235-237 | the codes convert exactly when each key is a number; then each becomes its number with its response, in order; otherwise the error names a key that is not a number |
| EgModelsVisitor.ErrorPairs | expediagroup/sdk/generator/client/visitors/models.py:236 | exactly the responses whose code is outside 200-299 are kept |
| EgModelsVisitor.ErrorResponsesKeys | expediagroup/sdk/generator/client/visitors/models.py:232-239 | the error responses are built exactly when every code is a number, and then a code is a key exactly when it is outside 200-299 and some response has it |
| EgModelsVisitor.Operation.constructor | expediagroup/sdk/generator/client/visitors/models.py:232-239 | an operation keeps its additional responses and starts without error responses |
| EgModelsVisitor.SetOtherResponsesModels | expediagroup/sdk/generator/client/visitors/models.py:232-239 | without an error every operation holds its specified error responses; with one, the operations before the first failing one hold theirs, that operation's conversion raised, and it and every later operation not among the earlier ones keep the error responses they had |
| EgModelsVisitor.DeleteRootModels | expediagroup/sdk/generator/client/visitors/models.py:250-262 | the `pop` loop over the root class names gives the specified result |
| EgModelsVisitor.WithoutKeys | expediagroup/sdk/generator/client/visitors/models.py:261-262 | after popping some names, a key remains exactly when it was present and was not popped |
| EgModelsVisitor.RemoveWithout | expediagroup/sdk/generator/client/visitors/models.py:262 | popping one more name is removing it from what remains |
| EgModelsVisitor.PopAllWithout | expediagroup/sdk/generator/client/visitors/models.py:261-262 | popping distinct names that are all present succeeds and leaves the entries without those names |
| EgModelsVisitor.RootClassnamesAreKeys | expediagroup/sdk/generator/client/visitors/models.py:258-259 | every root class name is a key of the dict |
| EgModelsVisitor.RootClassnamesDistinct | expediagroup/sdk/generator/client/visitors/models.py:258-259 | the root class names of a dict keyed by class name are distinct |
| EgModelsVisitor.RootClassnamesExact | expediagroup/sdk/generator/client/visitors/models.py:258-259 | a key is among the root class names exactly when its model has one unnamed field |
| EgModelsVisitor.WithoutRoots | expediagroup/sdk/generator/client/visitors/models.py:258-262 | removing exactly the keys of root models leaves the models that are not root models |
| EgModelsVisitor.NonRoot | expediagroup/sdk/generator/client/visitors/models.py:258-262 | the entries kept are exactly those whose model is not a root model |
| EgModelsVisitor.DeleteRootModelsExactly | expediagroup/sdk/generator/client/visitors/models.py:250-262 | for models keyed by class name, deleting root models never raises and removes exactly the models with one unnamed field |
| ClientParser.Filled | openworld/sdk/generator/client/parser.py:202-210 | every parameter kept has a truthy default |
| ClientParser.Positional | openworld/sdk/generator/client/parser.py:219-225 | the positional loop keeps the number of arguments |
| ClientParser.NoneFilled | openworld/sdk/generator/client/parser.py:228-230 | filling missing defaults keeps the number of arguments |
| ClientParser.FillParameters | openworld/sdk/generator/client/parser.py:201-210 | the loop skips the parameters `get_parameter_type` gave up on and gives the others `"None"` when their default is falsy |
| ClientParser.SetPositionalDefaults | openworld/sdk/generator/client/parser.py:219-225 | the loop gives `...` to a required argument without a default that follows a required one, `"None"` to every optional one, and leaves the rest |
| ClientParser.FillMissingDefaults | openworld/sdk/generator/client/parser.py:228-230 | the loop writes `"None"` over every missing default and leaves the rest |
| ClientParser.DedupByName | openworld/sdk/generator/client/parser.py:232-234 | the loop keys each argument by its name, a later argument replacing an earlier one of the same name |
| ClientParser.GetArgumentList | openworld/sdk/generator/client/parser.py:198-235 | the method returns the specified argument list and leaves the request body with the defaults written to it |
| ClientParser.Renderings | openworld/sdk/generator/client/parser.py:196 | one rendering per argument, in order |
| ClientParser.Names | openworld/sdk/generator/client/parser.py:233-234 | one name per argument |
| ClientParser.LastNamed | openworld/sdk/generator/client/parser.py:233-234 | the argument found has the name and comes from the list; none is found exactly when no argument has the name |
| ClientParser.DedupedGet | openworld/sdk/generator/client/parser.py:232-234 | the dict maps each name to the last argument that has it |
| ClientParser.DedupedDistinct | openworld/sdk/generator/client/parser.py:232-234 | the dict has no repeated key |
| ClientParser.DedupedKeys | openworld/sdk/generator/client/parser.py:232-234 | the keys are the names in the order of their first occurrence |
| ClientParser.DedupedEntries | openworld/sdk/generator/client/parser.py:232-234 | each entry is the last argument of its name, under that name, the names in the order of their first occurrence |
| ClientParser.DedupedValues | openworld/sdk/generator/client/parser.py:235 | the values have unique names, in the order of their first occurrence, each the last argument of the list with its name |
| ClientParser.BodyAfterParameters | openworld/sdk/generator/client/parser.py:212-217 | the request body, when there is one, comes after the parameters, with a truthy default |
| ClientParser.PositionalDefaults | openworld/sdk/generator/client/parser.py:219-230 | after the two loops every argument has a truthy default, `"None"` when it is optional, and a required argument is unchanged |
| ClientParser.FilledArgumentDefaults | openworld/sdk/generator/client/parser.py:198-230 | every argument before de-duplication has a truthy default, `"None"` when it is optional |
| ClientParser.ArgumentListShape | openworld/sdk/generator/client/parser.py:198-235 | the list returned has truthy defaults (`"None"` for optional arguments), unique names in the order of their first occurrence, and under each name the last argument that had it |
| ClientParser.RenderedWithDefault | openworld/sdk/generator/client/parser.py:196 | every argument joined into the signature is written `name: type = default` |
| ClientParser.FixPositionalIdempotent | openworld/sdk/generator/client/parser.py:221-225 | the positional rule changes nothing the second time and never changes whether an argument is required |
| ClientParser.ArgumentListStable | openworld/sdk/generator/client/parser.py:188-198 | calling `get_argument_list` again, with the request body as the first call left it, returns the same list and leaves the body unchanged |
| ClientParser.PositionalOneChanged | openworld/sdk/generator/client/parser.py:219-225 | lists that differ at one position that the positional rule maps alike come out of the loop equal |
| FraudModel.OmittedPairs | release/fraudPreventionV2/src/model.py:2574 | one pair per omitted field, in order, each holding `<-- omitted -->` |
| FraudModel.MaskedDictIs | release/fraudPreventionV2/src/model.py:2570-2576 | after the update every omitted field holds `<-- omitted -->`, every other key keeps its value, the keys are the parent's (in their order) followed by any omitted field it lacked |
| FraudModel.MaskedField | release/fraudPreventionV2/src/model.py:2574 | each omitted field reads `<-- omitted -->` |
| FraudModel.CreditCardMasked | release/fraudPreventionV2/src/model.py:2570-2576 | a credit card's dict masks the card number and the CVV and AVS responses and keeps every other key |
| FraudModel.GiftCardAndDirectDebitMasked | release/fraudPreventionV2/src/model.py:2697-2703 | a gift card's dict masks the pin and a direct debit's masks the account number, keeping every other key |
| FraudModel.TrailingNewlineAccepted | release/fraudPreventionV2/src/model.py:281 | as written, each of the four patterns, anchored with `$`, also accepts a value ending in one newline |
| FraudModel.AcceptedAsWritten | release/fraudPreventionV2/src/model.py:2713 | the pin and country code patterns, as written, accept exactly the described values and those values followed by one newline |
| FraudModel.FullMatchExactly | release/fraudPreventionV2/src/model.py:1940 | matched on the whole text, the four constraints accept exactly three upper-case letters, one to three digits, four to sixteen letters or digits, and four to eight digits |
| DocsgenUtil.CollapseNewlines | openworld/sdk/docsgen/util.py:25-26 | collapsing runs of newlines never makes the text longer |
| DocsgenUtil.CollapseCons | openworld/sdk/docsgen/util.py:25-26 | a newline followed by another one is dropped; any other character is kept in front of the collapsed rest |
| DocsgenUtil.ReplaceShorter | openworld/sdk/docsgen/util.py:25-26 | replacing a pattern that occurs by a shorter text shortens the text, so the `while` loop ends |
| DocsgenUtil.ReplaceHead | openworld/sdk/docsgen/util.py:26 | replacing `\n\n` by `\n` keeps the text non-empty and keeps whether it starts with a newline |
| DocsgenUtil.ReplaceKeepsCollapse | openworld/sdk/docsgen/util.py:25-26 | one pass of the replacement does not change what the loop converges to |
| DocsgenUtil.CollapseFixed | openworld/sdk/docsgen/util.py:25 | a text without `\n\n` is what the loop returns for it |
| DocsgenUtil.CollapseSingle | openworld/sdk/docsgen/util.py:25-26 | the loop's result holds no `\n\n` |
| DocsgenUtil.CollapseHead | openworld/sdk/docsgen/util.py:25-26 | collapsing keeps the first character |
| DocsgenUtil.CollapseLast | openworld/sdk/docsgen/util.py:25-26 | collapsing keeps the last character |
| DocsgenUtil.NoNewlineLeft | openworld/sdk/docsgen/util.py:27 | after every newline is replaced by `<br/>` none is left |
| DocsgenUtil.NewLinesProcessed | openworld/sdk/docsgen/util.py:22-27 | the processed text holds no newline |
| DocsgenUtil.ProcessNewLines | openworld/sdk/docsgen/util.py:22-27 | the strip, the collapsing loop and the final replacement give the specified processed text |
| DocsgenUtil.ReplaceNewlineEnds | openworld/sdk/docsgen/util.py:27 | replacing newlines keeps the first and last character of a text that neither starts nor ends with one |
| DocsgenUtil.ReplaceNewlineLast | openworld/sdk/docsgen/util.py:27 | replacing newlines keeps a last character that is not a newline |
| DocsgenUtil.NewlineFreeLacks | openworld/sdk/docsgen/util.py:25 | a text without newlines contains nothing that starts with one |
| DocsgenUtil.NoNewlineFixed | openworld/sdk/docsgen/util.py:25-27 | a text without newlines passes through the loop and the replacement unchanged |
| DocsgenUtil.StripFixed | openworld/sdk/docsgen/util.py:24 | a trimmed text is its own strip |
| DocsgenUtil.CollapseTrimmed | openworld/sdk/docsgen/util.py:24-26 | collapsing newlines keeps a trimmed text trimmed |
| DocsgenUtil.ReplaceTrimmed | openworld/sdk/docsgen/util.py:24-27 | replacing newlines keeps a trimmed text trimmed |
| DocsgenUtil.ProcessedEnds | openworld/sdk/docsgen/util.py:22-27 | the processed text has no surrounding whitespace |
| DocsgenUtil.ProcessedFixed | openworld/sdk/docsgen/util.py:22-27 | a trimmed text without newlines is processed to itself |
| DocsgenUtil.NewLinesProcessedIdempotent | openworld/sdk/docsgen/util.py:22-27 | processing the newlines twice is processing them once |
| DocsgenUtil.RemoveConstr | openworld/sdk/docsgen/util.py:30-45 | a text without `constr` is returned unchanged; otherwise the span from the first `constr(` to the last `)` is removed wherever it occurs, no `)` after it leaving the text as it is, and a missing `constr(` makes the slice start at the last character; the result is never longer |
| DocsgenUtil.SliceOfSpan | openworld/sdk/docsgen/util.py:37-45 | the Python slice from `find` to the closing parenthesis is the span itself, or `)` or empty when `find` gave -1 |
| DocsgenUtil.ScanToClose | openworld/sdk/docsgen/util.py:39-40 | the backward scan stops at the last `)` after the start, or at the start when there is none |
| DocsgenUtil.StartsWithPrefix | openworld/sdk/docsgen/util.py:81 | a prefix of a text starting with a pattern starts with it only when the text does |
| DocsgenUtil.AliasPass | openworld/sdk/docsgen/util.py:80-87 | one pass over the aliases never lengthens the text and shortens it when it removes something; a pass that removes nothing leaves no `]` at the end and no alias prefix |
| DocsgenUtil.RemoveBuiltinTypeAliases | openworld/sdk/docsgen/util.py:55-106 | every name returned starts upper case, holds no comma, and is not one of the generic types |
| DocsgenUtil.PeelAliases | openworld/sdk/docsgen/util.py:74-87 | the loop ends with no alias prefix and no trailing `]`, never lengthening the text |
| DocsgenUtil.FirstNamesOfPieces | openworld/sdk/docsgen/util.py:93-101 | each comma-separated piece contributes its first name, and only names that start upper case and are not generic are kept |
| DocsgenUtil.Reference | openworld/sdk/docsgen/util.py:110 | the Markdown link to a name is `[name](name.md)`, twice the name's length plus seven characters |
| DocsgenUtil.Linked | openworld/sdk/docsgen/util.py:116-122 | linking one occurrence adds the name's length plus seven characters |
| DocsgenUtil.AddReferenceToDatatype | openworld/sdk/docsgen/util.py:109-123 | a text as long as the name becomes the link; otherwise the first occurrence standing as a whole word is replaced by the link, and without one the text is unchanged; the result is never shorter |
| DocsgenUtil.GetDatatypeReference | openworld/sdk/docsgen/util.py:126-139 | only the empty text gives `None`; the result is never shorter than the input |
| DocsgenUtil.Header | openworld/sdk/docsgen/util.py:167-180 | a header of level k is k `#` characters, a space and the content |
| DocsgenUtil.HeaderLevels | openworld/sdk/docsgen/util.py:167-180 | `header1` to `header4` are the headers of levels 1 to 4 |
| DocsgenUtil.Bulleted | openworld/sdk/docsgen/util.py:184 | one `+ ` point per item, in order |
| DocsgenUtil.BulletPoints | openworld/sdk/docsgen/util.py:184 | no points give the empty text |
| DocsgenUtil.BulletLines | openworld/sdk/docsgen/util.py:183-184 | for items without newlines, the lines of the output are the items, each prefixed with `+ ` |
| OwDocsgenModels.NewAttribute | openworld/sdk/docsgen/models.py:38-48 | an attribute stores its docstring processed: no newline and no surrounding whitespace |
| OwDocsgenModels.NewArgument | openworld/sdk/docsgen/models.py:60-73 | an argument keeps name, type hint and optionality and stores its docstring processed once, the second processing changing nothing |
| OwDocsgenModels.ArgumentFrom | openworld/sdk/docsgen/models.py:75-82 | an argument built from a docstring parameter takes its name, processed description, type name and optionality |
| OwDocsgenModels.ArgumentsFrom | openworld/sdk/docsgen/models.py:117-120 | one argument per docstring parameter, in order, with its name |
| OwDocsgenModels.Description | openworld/sdk/docsgen/models.py:106-110 | the description is the long one when truthy, else the short one when truthy, else `---`, and is never empty |
| OwDocsgenModels.NewMethod | openworld/sdk/docsgen/models.py:89-98 | a method stores its docstring processed: no newline and no surrounding whitespace |
| OwDocsgenModels.MethodFromFunctionDef | openworld/sdk/docsgen/models.py:100-122 | the method takes the definition's name, the processed description, one argument per docstring parameter, and the default return type |
| OwDocsgenModels.MethodOf | openworld/sdk/docsgen/models.py:141-158 | a collected method takes the definition's name, the processed description and the printed return annotation |
| OwDocsgenModels.FromClassDef | openworld/sdk/docsgen/models.py:124-160 | the loop over the function definitions collects the specified methods |
| OwDocsgenModels.ClassMethodsSound | openworld/sdk/docsgen/models.py:131-158 | every collected method comes from a definition whose name is neither `__str__` nor `__dict__` |
| OwDocsgenModels.ClassMethodsComplete | openworld/sdk/docsgen/models.py:131-158 | every definition not ignored contributes its method |
| OwDocsgenModels.ClassFromShape | openworld/sdk/docsgen/models.py:197-220 | the bases are `object`, the declared bases in order, and the class name; the description is the long one, else a short one other than `None`, else `---`, unprocessed; each docstring parameter becomes one attribute with its docstring processed |
| OwDocsgenModels.Strips | openworld/sdk/docsgen/models.py:238 | each item stripped, in order |
| OwDocsgenModels.FromAssign | openworld/sdk/docsgen/models.py:231-239 | unpacking succeeds exactly when the text has one `=`; the alias has no docstring and a stripped name |
| OwDocsgenModels.FromAssignParts | openworld/sdk/docsgen/models.py:231-239 | the name is the text before `=` stripped, and the members are the text after it with the `Union[` and `]` ends removed, split on commas and stripped |
| OwDocsgenModels.FromAssignKeepsUnion | openworld/sdk/docsgen/models.py:232-238 | as written, on the printed text of `Name = Union[A, B]` the leading space and trailing newline keep `Union[` and `]` from being removed, so the members come out as `Union[A` and `B]` |
| OwDocsgenModels.FromAssignCorrected | openworld/sdk/docsgen/models.py:231-239 | with the right-hand side stripped before the ends are removed, unpacking still succeeds exactly when the text has one `=`; the alias has no docstring and a stripped name |
| OwDocsgenModels.MembersRoundTrip | openworld/sdk/docsgen/models.py:238 | splitting members joined by `, ` on commas and stripping them gives the members back |
| OwDocsgenModels.UnwrapUnion | openworld/sdk/docsgen/models.py:238 | stripping the printed right-hand side and removing `Union[` and `]` gives the joined members back |
| OwDocsgenModels.FromAssignRoundTrip | openworld/sdk/docsgen/models.py:231-239 | the corrected parse of the printed text of `Name = Union[members]` gives back the name and the members |
| OwDocsgenModels.NewModule | openworld/sdk/docsgen/models.py:249-260 | a module keeps its name, classes, functions and aliases, and its file is the name followed by `.md` |
| OwDocsgenDocs.BreadcrumbsShape | openworld/sdk/docsgen/docs.py:31-35 | without previous levels the trail is the current one; otherwise it is the previous levels joined by ` / `, the separator, and the current level; it always ends with the current level |
| OwDocsgenDocs.ParamLines | openworld/sdk/docsgen/docs.py:55 | one `\tname: type,` line per parameter, in order |
| OwDocsgenDocs.ConstructorWithoutParams | openworld/sdk/docsgen/docs.py:58-65 | without parameters the code block holds the single line `Name()` between the fences |
| OwDocsgenDocs.ConstructorWithParams | openworld/sdk/docsgen/docs.py:52-65 | with parameters the lines are the opening fence, `Name(`, one line per parameter in order, `)` and the closing fence |
| OwDocsgenDocs.InitIndex | openworld/sdk/docsgen/docs.py:137 | the index found is the first method named `__init__`, or -1 when none is |
| OwDocsgenDocs.ArgumentParams | openworld/sdk/docsgen/docs.py:138 | one parameter per `__init__` argument, with its name and type hint |
| OwDocsgenDocs.AttributeParams | openworld/sdk/docsgen/docs.py:138 | one parameter per attribute, with its name and type hint |
| OwDocsgenDocs.ClassComponentShape | openworld/sdk/docsgen/docs.py:131-146 | the page is the class name followed by `.md`; the trail is the parent's followed by a link to it; an enum shows an empty constructor, otherwise the first `__init__` gives the parameters and the attributes serve only without one; the description becomes the first `__init__`'s docstring exactly when it is empty or `---` and that docstring is not empty, and stays as it was otherwise; nothing else of the class changes |


## Left out

- HTTP I/O: the `requests` calls in every `ApiClient.call`, the token retrieval of the auth clients, and the paginator's `call_with_response` are not modelled. The responses they return are inputs. So are the logging calls around them, and the request timeout, which is float arithmetic.
- Concurrency: the `Lock` around token refresh in the auth clients is not modelled.
- The SHA-512 signature of the Rapid header is computed outside the model and arrives as text.
- `datetime.now()` and `uuid4()` are parameters: the current instant and the fresh transaction ids.
- `sdk.config`: the file is not read. The namespace and version it holds are parameters of `get_sdk`.
- Spec preparation: `prepareSpecFile` and `prepareTmpZipFile` (Base64, zip, temporary files) are not modelled. The prepared specification, or the error preparing it raised, is an input of `OpenApiSdkGenerator.Run`, and so is the error the generator library's `generate()` raises, if any, and the stack-trace text `printStackTrace()` writes for a caught exception.
- pydantic: parsing is not modelled; a model's parsed value, or its failure, is an input. Such a failure also covers `response.json()` failing on a body that is no JSON. Validation is modelled only for the four constrained fields of the fraud prevention v2 models: country code, country access code, gift card number and pin. The other constrained fields follow the same patterns and are not modelled.
- Character classes and case mapping (`isupper`, `isalpha`, `isalnum`, `lower`, `upper`, `capitalize`, `strip`, Kotlin `lowercase`) are the ASCII ones. Non-ASCII letters and whitespace are not modelled.
- `replace_word` passes the word to `re.finditer` as a regular expression. The model reads it as literal text, which is the same for words made of letters, digits and `_`.
- `EgDocsgenResolver` uses the corrected `replace_word` (see Findings). Where the source's `replace_word` raises, the resolvers here go on. The corrected word test also keeps a word that follows a digit in the middle of the text (`"x 2Foo y"`), which the source replaces (`EgDocsgenUtil.DigitBeforeMiddleWordReplaced` against `EgDocsgenUtil.DigitBeforeMiddleWordKept`), so `TypeAliasResolver.Resolve` and `CrossReferenceResolver.Resolve` differ from the source on such text. Python's recursion limit is the `fuel` parameter: a resolution deeper than `fuel` ends in `RecursionError`.
- `get_parameter_type` and `get_data_str_type` of the client parsers wrap datamodel-code-generator and stringcase. They are not modelled; their results are inputs.
- The openworld client generator's `client/model.py` is not part of this model. Its arguments are the records of `ClientModel`.
- The first loop of `get_arguments` builds a list that is never used, so it is not modelled. `ClientParser.GetArguments` and `ClientModel.Rendered` compute text and have no contract of their own. What they produce is stated by `ClientParser.RenderedWithDefault` and `ClientModel.RenderedShape`.
- Pagination.HeaderLookup: `requests` joins the values of two header lines whose names differ only in case into one value separated by `, `. The model takes the later value instead.
- EgModelsVisitor.SetOtherResponsesModels: Python's `int()` is the parameter `toInt`, so the contract is stated for any conversion, not for `int()` alone.
- EgModelsVisitor.ParseSortedAliases: reading a `defaultdict(int)` also inserts a 0 for a name never seen. Those entries are never read again as anything but 0, so they are not modelled.
- `collect_imports`, `parse_datamodels`, `get_error_models` and `get_models` of the models visitor wrap datamodel-code-generator and are not modelled.
- Aliasing: the model cannot say that the caller sees a Python object mutated in place, because the source's dictionaries and records are values here. This covers the header dicts, the models dict of the visitor, a method's arguments list, and the class whose docstring `ClassComponent` overwrites. `ClassComponent` returns the updated class instead.
- docsgen inputs: `ast.walk`, `ast.get_docstring`, `astor.to_source` and `docstring_parser.parse` are not modelled. Their results (function definitions, parsed docstrings, printed annotations) are inputs, and `print(docstrings.meta)` is left out.
- openworld docsgen: the `Function` class only passes its arguments to `Method` and is not modelled separately.
- openworld docsgen: `MethodComponent`, `ClassComponent.__str__`, `ModuleComponent` and `render` build PrettyTable tables and write files, and are not modelled.
- `has_class_definition` and `extract_types` of the openworld docsgen util are not modelled (the second walks `ast` nodes). `write_file` is I/O and is not modelled either.
- ExpediaGroup docsgen: `Variable.from_`, `Argument.from_method`, `Method.from_`, `Module.from_`, `Master.from_modules` and `init_breadcrumbs_from_parent` are not modelled. Their results are inputs of the modelled builders; for example `Class.from_` receives its methods already built.
- DocsgenUtil.RemoveBuiltinTypeAliases: states only that every name returned qualifies (upper case first, no comma, not generic). It does not state which names the alias stripping finds.
- DocsgenUtil.FirstNamesOfPieces: states only that the names kept qualify.
- DocsgenUtil.PeelAliases: states only the loop's exit condition, not the text it leaves.
- DocsgenUtil.GetDatatypeReference: states only the `None` case and that links never shorten the text. It searches for each name as literal text, as `DocsgenUtil.AddReferenceToDatatype` does.
- DocsgenUtil.AddReferenceToDatatype: `re.finditer` at openworld/sdk/docsgen/util.py:116 reads the name as a regular expression, and the model searches for it as literal text. The two agree on names made of letters, digits and `_`. A name that keeps a `[` because its alias is not in the stripped list (`Tuple[Foo]` gives `Tuple[Foo`) makes the source raise `re.error`. A `.` in a name matches any character in the source. The model does neither.
- ExpediaGroupApi.Unwrap: the JSON dump and reload of expediagroup/sdk/core/model/api.py:46 is read as the identity. A pydantic model, Enum member or UUID header value would come back in its JSON form; the model returns it unchanged.
- `HTTPStatus`: `HttpCommon.IsHttpStatus` lists its values as of Python 3.9. Under Python 3.8, which the packages also allow, 103, 418 and 425 raise `ValueError` as well.

## Findings

| source | as written | input that shows it | evidently intended | confidence | as-written member | corrected member |
|---|---|---|---|---|---|---|
| openworld/sdk/core/client/pagination.py:71-95 | `get_pages` is a generator, and `StopIteration` raised inside it by the endpoint update escapes; under PEP 479 it becomes `RuntimeError` | three or more results, and a page 2 response without a `Link` header | the iteration ends quietly after the pages already yielded | not executed | Pagination.Paginator.MissingLinkStopsIteration | Pagination.Paginator.GetPagesCorrected |
| expediagroup/sdk/docsgen/util.py:72 | the start-of-text test reads `text[len(word)]` even when the word is the whole text | `replace_word("Foo", "Foo", "[Foo](Foo.md)")` raises `IndexError` | the whole text is replaced | not executed | EgDocsgenUtil.WholeTextRaises | EgDocsgenUtil.CorrectedNeverFails |
| expediagroup/sdk/docsgen/util.py:76-80 | a final word after a digit fails the `isalnum` test of the end-of-text branch and reaches the middle branch, which reads past the end | `replace_word("1Foo", "Foo", "Bar")` raises `IndexError` | the word is embedded and the text is kept; the corrected test treats a digit before the word alike everywhere, so it also keeps `"x 2Foo y"`, which the source replaces | not executed | EgDocsgenUtil.DigitBeforeFinalWordRaises | EgDocsgenUtil.DigitBeforeFinalWordKept |
| generated/fraud-prevention-test/0.1.1/openworld-sdk-python-fraudpreventiontest-0.1.1/openworld/sdk/core/model/authentication.py:85-87 | `Token.update` replaces the response and the expiry but not the stored `HttpBearerAuth`, so requests keep sending the old token | a token created with access token `a`, then updated with `b` | the bearer header follows the new access token | not executed | Authentication.StaleHeaderAfterUpdate | Authentication.CurrentHeaderAfterUpdate |
| release/fraudPreventionV2/src/model.py:281 | the patterns end in `$`, which in Python `re` also matches before one trailing newline, so pydantic version 1 accepts it | `"USA\n"` as a country code, `"1234\n"` as a pin | only the described characters are accepted | not executed | FraudModel.TrailingNewlineAccepted | FraudModel.FullMatchExactly |
| openworld/sdk/docsgen/models.py:238 | `removeprefix('Union[')` and `removesuffix(']')` run on the unstripped right-hand side, which starts with a space and ends with a newline, so nothing is removed | `Name = Union[A, B]` gives the members `Union[A` and `B]` | the members `A` and `B`; openworld/sdk/docsgen/docs.py:252-255 strips `Union[` and `]` again when it renders them, so the stored members are wrong but the rendered page is not | not executed | OwDocsgenModels.FromAssignKeepsUnion | OwDocsgenModels.FromAssignRoundTrip |
