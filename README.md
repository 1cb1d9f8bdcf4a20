# Page step of the product crawler

This project models the one piece of the crawler with logic of its own: the page step in
`utils/scraper_utils.py`. The step is `fetch_and_process_page` together with its probe
`check_no_results`. For page `n` it does the following:

- It builds the URL `base_url?page=n`.
- It loads the URL once without a selector or extraction. The run stops if that load
  succeeded and its cleaned HTML contains `No Results Found`.
- Otherwise it loads the URL again with the CSS selector and the LLM extraction strategy.
- It walks the extracted product records in order. It drops an `error` key that holds
  exactly `false`. It skips records that lack a required key. It skips records whose `name`
  is already in the run's `seen_names` set.
- Each accepted record's name goes into `seen_names` in place, and the record joins the page's list.

Modules, one per concern:

- `Wrappers`: `Option`.
- `Json`: parsed JSON values and `Record`, a map from field name to JSON value.
- `DataUtils`: `is_complete_product` and `is_duplicate_product`. Their file,
  `utils/data_utils.py`, is not part of this model. The definitions here are ASSUMED: "every
  required key is a key of the record" and "the name is in the seen set". These are the simplest
  readings that fit the calls. The completeness and duplicate properties proved below hold only
  under these assumptions.
- `Text`: Python's substring test (`Contains`) and `str(int)` (`IntToDecimal`). `Contains`
  is stated through `OccursAt`, "the pattern occurs at some position". `ParseInt` is the partner of
  `IntToDecimal`, used to state what the rendering means.
- `ScraperUtils`: the page step.
  - The crawler is a function parameter `arun` from `CrawlRequest` to `CrawlResult`.
  - `PageStep` is the step as a function of the crawler's outcomes.
  - `FilterProducts` is the filter loop as a function of the records it has walked.
  - `FirstNewProducts` is an independent reference for the loop: the first complete
    occurrence of every name not seen before, in input order.
  - The class `SeenNames` holds the caller-owned set.
  - The method `ProcessProducts` is the loop, proved against `FilterProducts`.
  - The method `FetchAndProcessPage` is the whole step, proved against `PageStep`.

## Model

| member | source | states |
|---|---|---|
| `Text.Contains` | utils/scraper_utils.py:92 | `pattern in text` holds exactly when the pattern occurs at some position of the text |
| `Text.NatToDecimal` | utils/scraper_utils.py:130 | the rendering of a non-negative number is a non-empty string of digits, with a leading `0` only for zero |
| `Text.IntToDecimal` | utils/scraper_utils.py:130 | `str(n)` for an `int` is in canonical form: an optional minus sign exactly for negative numbers, then digits with no leading zero unless the number is zero (never `-0` or `07`) |
| `Text.IntToDecimalRoundTrip` | utils/scraper_utils.py:130 | the decimal rendering of any `int`, minus sign included, reads back as the same number |
| `Text.CanonicalDecimalRoundTrip` | utils/scraper_utils.py:130 | every canonical decimal string reads as an `int` whose rendering is that same string, so the rendering is the only canonical spelling of a number |
| `ScraperUtils.PageUrl` | utils/scraper_utils.py:130 | the page URL is the base URL, then `?page=`, then a canonical rendering that reads back as the page number |
| `ScraperUtils.PageUrlDetermined` | utils/scraper_utils.py:130 | any string that meets `PageUrl`'s contract is exactly `PageUrl(base, n)` |
| `ScraperUtils.PageUrlInjective` | utils/scraper_utils.py:130 | different page numbers give different URLs for the same base URL |
| `ScraperUtils.CheckNoResults` | utils/scraper_utils.py:66-99 | with the probe load built by `ProbeRequest` (the config at :83-89: session, no selector, no extraction), true exactly when that load succeeded and its cleaned HTML contains `No Results Found`; a failed probe gives false |
| `ScraperUtils.StripFalseError` | utils/scraper_utils.py:170-172 | the `error` key is removed exactly when it holds JSON `false`; every other key, and an `error` key with any other value, keeps its value; no key is added |
| `ScraperUtils.FilterProducts` | utils/scraper_utils.py:165-183 | with `Accepts` as the test at :174-179 (complete and not a duplicate), the loop over the records walked so far keeps at most as many records as it walked and never removes a name from the seen set |
| `ScraperUtils.FilterKeepsFirstNewProducts` | utils/scraper_utils.py:165-183 | the loop keeps exactly the first complete occurrence of each name not seen before the page, in input order; the seen set gains the names of all complete records |
| `ScraperUtils.FilterSeenGrowth` | utils/scraper_utils.py:174-183 | after the loop the seen set is its entry value plus exactly the names of the accepted records |
| `ScraperUtils.FilterAcceptedWellFormed` | utils/scraper_utils.py:174-183 | every accepted record has every required key; its name was not in the seen set on entry; accepted names are pairwise distinct |
| `ScraperUtils.FilterPreservesOrder` | utils/scraper_utils.py:165-183 | the accepted records are a subsequence, in order, of the input records after error stripping |
| `ScraperUtils.PageStep` | utils/scraper_utils.py:130-190 | the extracting load is built by `ExtractRequest` (the config at :141-149: session, CSS selector, extraction), and `ExtractedRecords` is the records of the extracting load that the lemmas speak about, empty when :151 exits early; the step stops exactly when the probe of the page URL succeeded and shows the marker; when it stops it returns no records and leaves the seen set unchanged |
| `ScraperUtils.PageStepKeepsFirstNewProducts` | utils/scraper_utils.py:141-190 | a step that does not stop returns the first complete occurrence of each new name among the records loaded with extraction from the same URL; a failed or empty load returns nothing |
| `ScraperUtils.PageStepProductsWellFormed` | utils/scraper_utils.py:151-190 | on every exit the returned records are complete, new to the run, distinct by name and in the order of the extracted records; the seen set grows by exactly their names |
| `ScraperUtils.PageStepSoftFailures` | utils/scraper_utils.py:151-159 | a failed load, absent content or an empty record list returns `([], false)` and leaves the seen set unchanged |
| `ScraperUtils.ProcessProducts` | utils/scraper_utils.py:165-183 | the loop leaves the accepted list and the seen set equal to `FilterProducts` of its input and the entry set; the set grows by exactly the accepted names |
| `ScraperUtils.FetchAndProcessPage` | utils/scraper_utils.py:102-190 | the imperative step returns the records and stop flag of `PageStep` and leaves the seen set at `PageStep`'s value |

## Left out

- The crawler calls (`AsyncWebCrawler.arun`, `CrawlerRunConfig`, `CacheMode`) and `async`/`await`. They are browser and network I/O. The crawler is a deterministic function parameter from request to result. The request records the URL, the session, the CSS selector and whether extraction is attached. Cache bypass, which both calls use, is not represented.
- `get_browser_config` and `get_llm_strategy`, including the `GROQ_API_KEY` environment read. They only build library configuration. The LLM strategy appears only as the request's `extract` flag.
- `json.loads` of the extracted content. The crawler result carries the already-parsed list of records. `None` stands for absent or empty content. A falsy payload (`null`, `false`, `0`, `""`, `{}`) takes the same branch as an empty list and is represented as `Some([])`. A malformed payload raises and is not modelled. So does a truthy payload that is not a list, and a list that holds non-objects.
- All `print` logging, including the error message of a failed load.
- Text.IntToDecimal: does not model CPython's limit on integer-to-string conversion (`sys.int_info.default_max_str_digits`, 4300 digits by default). For a page number with more than 4300 digits the f-string raises `ValueError` before either load. The model renders the number and goes on with the step. Page numbers come from a counter that starts at 1, so the limit is out of reach in practice. `PageUrl` inherits this.
- The bodies of `is_complete_product` and `is_duplicate_product`. `utils/data_utils.py` is not part of this model. The assumed definitions are stated in `DataUtils`.
- The pagination driver that calls the page step repeatedly. It is not part of this model.
- A `required_keys` list without `"name"`. The model requires `"name"` among the required keys, as `config.py` has it; otherwise `product["name"]` could raise `KeyError`.
- Python set semantics for names that are not strings. The model compares JSON values structurally. Python treats `true` and `1` as the same set element and raises `TypeError` for list or object names. The extraction schema asks for string names, but nothing checks the parsed records against it, so a name of another type reaches the set as is.
- JSON numbers are modelled as integers only.
- In-place mutation of the parsed records. `product.pop("error")` changes the dictionaries inside the locally parsed list. Only the returned records are visible to the caller, so each record is modelled as a value and stripped before the checks.
- `models/product.py` and `config.py`: a schema and constants, with no logic.
