# Shelter pet feed — extraction core

This project models the extraction core of a small scraper. The scraper
fetches public shelter listing pages from one pet-adoption site and turns
them into a JSON feed of adoptable pets. The repository has two handlers,
and both are modelled:

- **The Netlify function** (`netlify/functions/pets.js`) works per organisation:
  1. Cut the embedded `__NEXT_DATA__` JSON payload out of the page (`extractNextDataJson`).
  2. Walk the parsed tree and collect every pet-like object (`collectAnimals`).
  3. Normalise each record's URL to an absolute profile URL.
  4. Write the record into a JavaScript `Map` keyed by that URL.

  The feed is the map's values in insertion order. When a URL is written
  again, the later write replaces the earlier value but keeps its position.
- **The Vercel function** (`api/pets.js`) scans each page with the global
  regex `href="(/(dog|cat)/[^"]+)"`. It keeps the first occurrence of each
  path per page and emits one record per path. Nothing is deduplicated
  across organisations.

Modules, one concept each:

| module | file | concept |
|---|---|---|
| `Wrappers` | wrappers.dfy | `Option` |
| `Text` | text.dfy | `indexOf`, `includes`, `startsWith` and `trim` on strings |
| `Seqs` | seqs.dfy | keep-first deduplication of a sequence (a `Set` of seen values) |
| `Json` | json.dfy | parsed JSON values, JavaScript truthiness, `?.` and `\|\|` chains |
| `Site` | site.dfy | organisations and the site origin |
| `OrderedMap` | ordered_map.dfy | a JavaScript `Map` as an insertion-ordered association list |
| `NextData` | next_data.dfy | `extractNextDataJson` |
| `Collect` | collect.dfy | `collectAnimals` and the pet-likeness test |
| `NetlifyFeed` | netlify_feed.dfy | the Netlify handler's normalise-and-write loop and its feed |
| `LinkScan` | link_scan.dfy | the regex scan, the per-page `seen` set and the Vercel feed |

The JavaScript semantics the code relies on are written out explicitly:

- **Truthiness.** `undefined` is `None`. `null`, `false`, `0`, `""` are
  falsy. Arrays and objects are truthy.
- **`a || b || c`.** This is the first truthy operand, else the last one.
- **`indexOf` with a position.** The position is clamped to the string's
  length. A result of `-1` is `None`.
- **`trim`.** It strips the ECMAScript WhiteSpace and LineTerminator code
  points from both ends.
- **The regex.** It is leftmost, resumes at `lastIndex`, and matches are
  non-overlapping. `ScanIsExhaustive` and `ExhaustiveIsScan` show that the
  scanner produces exactly the sequence of matches these rules determine.

The page fetch is a parameter `fetch: string -> string` (organisation URL
to page text). `JSON.parse` is a parameter `parse: string -> Option<Json>`,
where `None` stands for a parse error.

## Model

| member | source | states |
|---|---|---|
| Text.FirstFrom | netlify/functions/pets.js:13 | the result is the first occurrence of the pattern at or after the start index, and `None` exactly when there is none |
| Text.IndexOf | netlify/functions/pets.js:10-14 | `indexOf(pat, from)`: the first occurrence at or after the clamped position, no earlier one, and `-1` (`None`) if and only if the pattern occurs nowhere from there |
| Text.Includes | netlify/functions/pets.js:46 | `includes` is true if and only if the pattern occurs somewhere in the string |
| Text.Trim | netlify/functions/pets.js:15 | `trim()` returns the unique slice that neither starts nor ends with white space and has only white space outside it |
| Seqs.Dedup | api/pets.js:22-28 | keeping only the first occurrence leaves every element of the input present, nothing else, and no element twice |
| Seqs.DedupOrder | api/pets.js:25-28 | kept paths come out in the order of their first occurrence in the input |
| Seqs.DedupCount | api/pets.js:27-28 | the number of kept elements is the number of distinct input elements |
| Json.Lookup | netlify/functions/pets.js:24-26 | a property read returns a value bound to that key, or `undefined` when no field has the key |
| Json.OrChain | netlify/functions/pets.js:26 | `a \|\| b \|\| …` yields the first truthy operand, and the fallback when none is truthy |
| OrderedMap.Put | netlify/functions/pets.js:88-95 | `Map.set` keeps the key order and appends only new keys; afterwards the key maps to the new value and every other key keeps its old value |
| OrderedMap.PutAllGet | netlify/functions/pets.js:83-96 | after a series of `set` calls, a written key holds its LAST written value and an unwritten key keeps its old value |
| OrderedMap.PutAllKeys | netlify/functions/pets.js:88-101 | the map's keys are the written keys deduplicated in order of first write |
| OrderedMap.PutAllFromEmpty | netlify/functions/pets.js:71-101 | starting from an empty map, the keys are distinct and in first-write order, and each entry holds the last value written for its key |
| OrderedMap.LastValueConcat | netlify/functions/pets.js:73-97 | a write in a later batch overrides every write for the same key made before it |
| OrderedMap.LastValueWritten | netlify/functions/pets.js:88-95 | the value a key ends up with is one of the pairs actually written |
| NextData.Enclosed | netlify/functions/pets.js:10-15 | the text between the first opening marker and the first closing marker after it, or `None` when either marker is missing |
| NextData.ExtractNextData | netlify/functions/pets.js:8-17 | `null` when the start tag is missing, or when no `</script>` follows it; otherwise the parse of the trimmed text between the start tag and the first `</script>` after it |
| Collect.ToFound | netlify/functions/pets.js:24-49 | the pushed record carries the node's own name and species, the first truthy of `url`/`seoUrl`/`detailsUrl`/`profileUrl`, and the first truthy of the ten photo candidates in source order (or `null` when none is truthy); the record is a Dog or a Cat with a pet-like URL |
| Collect.UrlIsFirstTruthy | netlify/functions/pets.js:26 | the URL chain's value is the first truthy URL field |
| Collect.PhotoIsFirstTruthy | netlify/functions/pets.js:29-40 | the photo chain's value is the first truthy candidate, or `null` when every candidate is falsy |
| Collect.CollectAnimalsAppends | netlify/functions/pets.js:20-57 | the walk only appends to `out`, appends only well-formed records, and leaves `out` alone on `null`, `undefined` and primitives |
| Collect.CollectIsPreorderFilter | netlify/functions/pets.js:20-57 | the walk appends exactly the records of the tree's pet-like nodes, in pre-order (node first, then children in index order) |
| Collect.CollectChildrenIsPreorderFilter | netlify/functions/pets.js:52-56 | the loop over children from index `i` appends exactly the records of the pet-like nodes under those children, in order |
| Collect.PetPushedBeforeChildren | netlify/functions/pets.js:48-56 | a pet-like node's own record is pushed before anything found among its children |
| Collect.PetsExactly | netlify/functions/pets.js:42-50 | a record is collected for every pet-like node and for nothing else |
| NetlifyFeed.ProfileUrl | netlify/functions/pets.js:84-86 | the collected URL is kept unchanged exactly when it starts with "http", and otherwise the site origin is put in front of it; either way the result starts with "http" and ends with the collected URL |
| NetlifyFeed.ProfileUrlIdempotent | netlify/functions/pets.js:84-86 | normalising an already normalised URL changes nothing |
| NetlifyFeed.RelativePathUnderOrigin | netlify/functions/pets.js:84-86 | a "/…" path becomes the site origin followed by that path |
| NetlifyFeed.ToPet | netlify/functions/pets.js:88-95 | the written record has the organisation's id and name and the normalised URL; its species is the item's; its name is the item's, or "View pet" when that is empty; its photo is the item's when truthy, else `null` |
| NetlifyFeed.PageItems | netlify/functions/pets.js:75-80 | every record collected from a page is well-formed; nothing is collected when the payload is missing or falsy |
| NetlifyFeed.WritesShape | netlify/functions/pets.js:73-96 | every map write is keyed by its record's profile URL, holds a good record and names one of the organisations |
| NetlifyFeed.FeedUrls | netlify/functions/pets.js:71-101 | the feed has one record per distinct profile URL, listed in the order the URLs were first written |
| NetlifyFeed.FeedLastWriteWins | netlify/functions/pets.js:83-101 | each record of the feed is the last one written under its profile URL |
| NetlifyFeed.FeedRecordsGood | netlify/functions/pets.js:83-101 | every record of the feed is a Dog or Cat with an "http" URL, a non-empty name and a truthy or `null` photo, and comes from one of the organisations |
| NetlifyFeed.LastOrgWins | netlify/functions/pets.js:73-97 | a URL also written by the last organisation ends up attributed to that organisation |
| NetlifyFeed.WriteItems | netlify/functions/pets.js:83-96 | the inner loop performs the organisation's writes, in order, on the map |
| NetlifyFeed.Handler | netlify/functions/pets.js:71-101 | the handler's `pets` array is the feed: the map's values after all organisations' writes |
| LinkScan.MatchAt | api/pets.js:21 | the pattern matches at a position exactly when this returns the captured path and end; the end is the only one the pattern admits |
| LinkScan.NextMatchIsLeftmost | api/pets.js:21-25 | `exec` from `lastIndex` returns the leftmost match at or after it, and `null` only when none exists from there on |
| LinkScan.ScanIsExhaustive | api/pets.js:21-25 | the `exec` loop yields the leftmost non-overlapping matches left to right, skipping none |
| LinkScan.ExhaustiveIsScan | api/pets.js:21-25 | any sequence of matches following those rules is exactly what the loop yields |
| LinkScan.PagePathsFromLinks | api/pets.js:21-26 | every captured path is a "/dog/…" or "/cat/…" link path without quotes, taken from a match in the page |
| LinkScan.ToPet | api/pets.js:30-36 | a record is a Cat if and only if its path starts with "/cat/", and a Dog otherwise; its profile URL is the site origin followed by the path; its name is "View Pet"; its shelter is the organisation |
| LinkScan.PagePetsShape | api/pets.js:21-37 | one page gives one record per kept path; each path is a "/dog/…" or "/cat/…" link from the page, and its record has that path's species, the site origin followed by the path, the name "View Pet" and the organisation as shelter |
| LinkScan.PageUrlsDistinct | api/pets.js:22-37 | the profile URLs of one page are pairwise distinct, and there are as many as there are distinct matched paths |
| LinkScan.PageOrder | api/pets.js:25-30 | a page's records come in the order their paths first occur in the page |
| LinkScan.FeedConcat | api/pets.js:18-38 | no deduplication across organisations: the run over `a + b` is the run over `a` followed by the run over `b` |
| LinkScan.SamePageTwoOrgs | api/pets.js:18-38 | two organisations with the same page both get records for the same profile URLs |
| LinkScan.ScanPage | api/pets.js:21-37 | the `exec` loop with the per-page `seen` set yields the page's records |
| LinkScan.Handler | api/pets.js:16-38 | the handler's `results` array is the concatenation of the pages' records, organisation by organisation |

## Left out

- Network fetches (`fetchText`, `fetch(...).then(r => r.text())`): the page text is the parameter `fetch`. A failed fetch is not modelled.
- `JSON.parse`: the parameter `parse`, with `None` for a parse error. The resulting `null` is treated like any other falsy payload.
- Timestamps (`new Date().toISOString()`): they depend on the clock, and the `updated_at` field is not modelled.
- Response plumbing: status codes, headers, `JSON.stringify` and the error payloads.
- The `try`/`catch` around each handler: it aborts the whole run on the first thrown error, which is control flow around I/O.
- The hard-coded organisation lists: they are configuration, so organisations are a parameter `seq<Org>`.
- `Object.keys` order: JavaScript lists integer-like keys first. Here an object's fields are walked in the order the parsed value gives them.
- Objects with duplicate keys: such values are representable in `Json`, but `JSON.parse` never produces them. A property read takes the first binding.
- Property reads on arrays and strings: the modelled handlers read only plain field names such as `name` and `photos`, which arrays and strings never carry. Such reads are `undefined`, except `?.[0]`, which is modelled.
- JSON numbers are mathematical reals. Only their truthiness matters here.
- Enrichment worker pool and per-source link caps: neither appears in the handlers' code.
- NetlifyFeed.ProfileUrl: proves that the URL starts with "http", not that it starts with the site origin. The code keeps any collected URL that already starts with "http", so an absolute URL on another host is kept as-is. A profile URL therefore need not carry the site origin.
- LinkScan.Feed: profile URLs are unique per page, not per feed. The code deduplicates only within one organisation's page, so the same profile URL can appear once per organisation, as `LinkScan.SamePageTwoOrgs` states.
