# Google Photos Rummy, modelled in Dafny

Google Photos Rummy picks a random sample of one calendar year's photos and
downloads it. It gathers candidates from two kinds of repository: a Google
Photos account, read through the paged `mediaItems` listing, and a local
directory tree of `.jpg`/`.jpeg` files. It then draws a weighted sample with
replacement that favours days with few photos, and counts the downloads that
succeed.

This project models that core as pure functions over immutable data and
proves properties of it:

| file | module | models |
|---|---|---|
| `outcomes.dfy` | `Outcomes` | `Option` and `Result` |
| `datetimes.dfy` | `DateTimes` | naive Python datetimes: validity, ordering, `min`, `datetime(year, 1, 1)` |
| `timestamps.dfy` | `Timestamps` | the two-format `creationTime` parse of `GooglePhoto.date` |
| `pictures.dfy` | `Pictures` | media items, pictures, the exclusion filter and the date-window filter |
| `google_photos.dfy` | `GooglePhotos` | `GooglePhotosRepository.get_pictures`: paging, early stop, window |
| `files.dfy` | `Files` | `FileRepository.get_pictures`: the two globs and the window |
| `sampler.dfy` | `Sampler` | `select_random_pictures`: per-day counts, weights, `random.choices` |
| `rummy.dfy` | `Rummy` | `main`: the year window, gathering across repositories, the download tally |

How the outside world becomes data:

- The remote service is the sequence of its listing responses in request
  order (`GooglePhotos.Page`).
- A directory tree is the sequence of its files in visiting order. Each file
  carries the date its picture reports (`Files.FileEntry`).
- The successive `random.random()` values are a function `variate: nat -> real`.
- The outcome of each remote download is a function `remoteOk: nat -> bool`,
  indexed by position in the sample. A download that raises is not modelled
  (see `Rummy.Main` under "## Left out").
- Numbers are exact: integers are unbounded and weights are `real`.

The model follows the code as written:

- The local repository globs `**/*.jpg` and `**/*.jpeg`. On POSIX the glob is
  case-sensitive, so `.JPG` files are not candidates.
- `main`'s docstring states `pre: 1900 <= year < 3000 and sample_size > 0 …`
  (lines 181-184), and its body checks none of it. Those bounds are `requires`
  clauses of `Rummy.Main`.
- An account whose first page keeps no picture makes `min()` raise. The model
  returns `EmptyMinimum`.
- The repositories return their pictures in listing order for an account, and
  for a directory the `.jpg` files before the `.jpeg` files, each in visiting
  order. The model keeps that order.
- `random.choices` draws with replacement, so a sample may repeat a picture.

## Model

| member | source | states |
|---|---|---|
| DateTimes.LessIsStrictTotalOrder | google_photos_rummy.py:76 | datetime comparison is irreflexive, asymmetric, transitive and total |
| DateTimes.NewYearStartsTheYear | google_photos_rummy.py:185-186 | `datetime(year, 1, 1)` is later than every datetime of an earlier year, and no later than any datetime of `year` itself |
| DateTimes.MinDateIsLeast | google_photos_rummy.py:76 | `min` over the gathered dates returns one of them, and none lies below it |
| DateTimes.MinBelowIff | google_photos_rummy.py:76 | the minimum is below a bound exactly when some date is |
| Timestamps.ParseWhole | google_photos_rummy.py:119 | the whole-second format accepts only the 20-character `YYYY-MM-DDThh:mm:ssZ` shape, with no microseconds |
| Timestamps.ParseFraction | google_photos_rummy.py:121 | the fractional format accepts only the 27-character `YYYY-MM-DDThh:mm:ss.ffffffZ` shape |
| Timestamps.ParseCreationTime | google_photos_rummy.py:116-121 | the fallback fails exactly when both formats fail, carrying the text; on success the text is the rendering of the returned datetime in one of the two shapes, and a whole-second text gives microsecond 0 |
| Timestamps.ShapesAreDisjoint | google_photos_rummy.py:118-121 | no text has both shapes, so the fallback never overrides a first-format success |
| Timestamps.RenderedStamp | google_photos_rummy.py:119-121 | the common prefix of a rendering spells the rendered datetime |
| Timestamps.WholeRoundTrip | google_photos_rummy.py:119 | every datetime without microseconds, rendered in the first shape, parses back to itself |
| Timestamps.FractionRoundTrip | google_photos_rummy.py:121 | every datetime, rendered in the fractional shape, parses back to itself |
| Timestamps.StampIsRendering | google_photos_rummy.py:119-121 | a valid common prefix is the rendering of the datetime it spells |
| Timestamps.WholeAcceptsOnlyRenderings | google_photos_rummy.py:119 | the first format accepts nothing but renderings of the datetime it returns |
| Timestamps.FractionAcceptsOnlyRenderings | google_photos_rummy.py:121 | the fractional format accepts nothing but renderings of the datetime it returns |
| Pictures.KeptMembers | google_photos_rummy.py:66-75 | an item survives the filter exactly when its MIME type starts with `image` and its filename contains none of the markers PANO, PHOTOSPHERE, POP_OUT, COLLAGE |
| Pictures.KeptAppend | google_photos_rummy.py:66-75 | filtering a concatenation filters each part and keeps the order |
| Pictures.InWindow | google_photos_rummy.py:79-83 | a picture is kept exactly when it is an input dated in `[min_date, max_date)`; nothing is added |
| Pictures.InWindowAppend | google_photos_rummy.py:145-149 | the window filter distributes over concatenation, keeping the order |
| Pictures.InWindowIdempotent | google_photos_rummy.py:79-83 | filtering twice by the same window is filtering once |
| Pictures.InWindowCounts | google_photos_rummy.py:79-83 | the window filter keeps every copy of a picture dated in the window and drops every copy of one dated outside it |
| GooglePhotos.ParseAllDates | google_photos_rummy.py:66-68 | when every kept item parses, picture `i` is made from item `i` and dated by its timestamp |
| GooglePhotos.ParseAllFails | google_photos_rummy.py:65-76 | dating a batch raises exactly when some item's timestamp cannot be parsed, and raises the error of the first such item in batch order; every item before it parses |
| GooglePhotos.AnyBeforeIsMinBelow | google_photos_rummy.py:76 | the early-stop test holds exactly when some gathered picture is older than `min_date` |
| GooglePhotos.PageStep | google_photos_rummy.py:58-77 | a step that does not raise has gathered some picture, and it continues only when the page carries a token |
| GooglePhotos.Paging | google_photos_rummy.py:58-77 | a finished loop has made one request per consumed page, and consumed at least one more page and no more than exist |
| GooglePhotos.GetPictures | google_photos_rummy.py:43-83 | the result is the gathered pictures filtered by the window, in gathering order: a picture is returned exactly when it was gathered and lies in the window; at least one page was requested |
| GooglePhotos.StepGathers | google_photos_rummy.py:65-77 | after a step the gathered pictures are all batches so far, and it stops exactly when one is too old or the token is missing |
| GooglePhotos.StopStepStops | google_photos_rummy.py:76-77 | a page after which a gathered picture is too old or the token is missing ends the loop there, after a single request from that page on |
| GooglePhotos.StopEndsPaging | google_photos_rummy.py:76-77 | a step that stops (`break`, or no next token) ends the loop at that page with a single request from that page on |
| GooglePhotos.ContinueResumes | google_photos_rummy.py:58-62 | a continuing step leaves the loop resumable at the next page |
| GooglePhotos.ContinueStepStops | google_photos_rummy.py:58-62 | a continuing step at page `i` followed by a run from `i + 1` that stops is a run from `i` that stops at the same page, with one more request |
| GooglePhotos.PagingStopsAtFirstStop | google_photos_rummy.py:58-77 | the loop ends at the first page after which a gathered picture is too old or the token is missing |
| GooglePhotos.PagingRequests | google_photos_rummy.py:58-64 | a finished loop's first request is the current page's; any later requests are those of the loop resumed at the next page |
| GooglePhotos.PagingForwardsTokens | google_photos_rummy.py:61-62 | each request carries the token of the response before it |
| GooglePhotos.PagingEmptyMinimum | google_photos_rummy.py:76 | `min` raises on an empty list only when the very first page keeps nothing |
| GooglePhotos.PagingBadTimestamp | google_photos_rummy.py:58-76 | a timestamp error is that of the batch of a page the loop reached: every page before it carried a token, parsed, and brought no picture older than `min_date` |
| GooglePhotos.GatheredParsed | google_photos_rummy.py:66-68 | the pictures gathered from the first `n` pages are those pages' kept items, each dated by its timestamp |
| GooglePhotos.GetPicturesStopsAtFirstStop | google_photos_rummy.py:58-77 | every requested page but the last has a token; the last ends the listing or brings a too-old picture; earlier pages brought none; the gathered pictures are exactly their kept items, dated |
| GooglePhotos.GetPicturesForwardsTokens | google_photos_rummy.py:58-64 | the first request carries no page token, and every later one the token of the previous response |
| GooglePhotos.GetPicturesEmptyMinimum | google_photos_rummy.py:65-77 | the fetch raises on an empty `min` exactly when the first page keeps no item |
| GooglePhotos.GetPicturesBadTimestamp | google_photos_rummy.py:58-76 | a timestamp error names the first unparsable timestamp among the kept items, in order, of a requested page: every earlier page parsed, carried a token and brought no picture older than `min_date` |
| Files.GlobbedMembers | google_photos_rummy.py:139-143 | one glob yields exactly the files whose name ends in `.ext`, at most one picture per file |
| Files.ExtensionsAreExclusive | google_photos_rummy.py:141-142 | no file name ends in both `.jpg` and `.jpeg` |
| Files.AtMostOneCandidatePerFile | google_photos_rummy.py:139-143 | the two globs together yield at most one candidate per file |
| Files.GetPictures | google_photos_rummy.py:138-149 | the local fetch returns file pictures dated inside the window, no more than there are files |
| Files.GetPicturesSelects | google_photos_rummy.py:138-149 | a picture is returned exactly when a `.jpg` or `.jpeg` file dated in the window made it; the `.jpg` ones come first |
| Sampler.Days | google_photos_rummy.py:215 | the counted dates are the pictures' calendar dates, in order |
| Sampler.TallyCounts | google_photos_rummy.py:215 | the counter has a key exactly for each date present, and maps it to its number of occurrences |
| Sampler.DateCountsOfPictures | google_photos_rummy.py:215 | every picture's date is counted at least once, as often as pictures share it |
| Sampler.SameDayAlone | google_photos_rummy.py:215 | a picture's date is counted once exactly when no other picture shares it |
| Sampler.WeightBounds | google_photos_rummy.py:211-223 | each weight lies in `(0.8, 1.0]` |
| Sampler.WeightIsOneIffAlone | google_photos_rummy.py:220-223 | a weight is 1.0 exactly when its date count is 1 |
| Sampler.WeightDecreases | google_photos_rummy.py:220-223 | a busier day gives its pictures strictly lower weight |
| Sampler.Weights | google_photos_rummy.py:219-225 | there is one weight per picture |
| Sampler.WeightsOfPictures | google_photos_rummy.py:215-225 | picture `i` weighs `0.8 + 0.2 / c`, where `c >= 1` is the number of pictures sharing its date |
| Sampler.WeightsPositive | google_photos_rummy.py:219-225 | every weight is positive |
| Sampler.WeightIsOneIffAloneOnItsDay | google_photos_rummy.py:215-225 | a picture weighs 1.0 exactly when it is the only one taken that day |
| Sampler.SumPositive | google_photos_rummy.py:216-218 | the total of positive weights is positive |
| Sampler.Pick | google_photos_rummy.py:216-218 | the bisection lands on a valid index |
| Sampler.PickBand | google_photos_rummy.py:216-218 | the chosen index is the one whose cumulative-weight band contains the scaled variate |
| Sampler.PrefixSumsGrow | google_photos_rummy.py:216-218 | the running totals of positive weights strictly increase |
| Sampler.PickIsTheOnlyBand | google_photos_rummy.py:216-218 | the bisection picks index `i` exactly when the scaled variate lies in `i`'s band |
| Sampler.Draw | google_photos_rummy.py:216-218 | each draw returns one of the candidates |
| Sampler.DrawLands | google_photos_rummy.py:216-218 | a draw returns the candidate whose band contains `random() * total` |
| Sampler.Draws | google_photos_rummy.py:216-218 | `k` draws are made, and draw `j` uses the `j`-th variate |
| Sampler.DrawsLand | google_photos_rummy.py:216-218 | each of the `k` draws returns the candidate whose band holds its own variate |
| Sampler.SelectRandomPictures | google_photos_rummy.py:206-226 | no pictures or a non-positive size give an empty sample; otherwise `min(sample_size, len(pictures))` pictures, each a candidate |
| Sampler.DrawsFollowTheWeights | google_photos_rummy.py:211-226 | sampled picture `j` is the candidate whose band of the day-aware weights holds `random() * total` |
| Rummy.FetchFrom | google_photos_rummy.py:190-191 | a repository returns only pictures inside the window, and a local one, whose dates are given, never raises |
| Rummy.YearWindow | google_photos_rummy.py:185-186 | the window runs from `datetime(year, 1, 1)` to `datetime(year + 1, 1, 1)`, and is not empty |
| Rummy.YearWindowIsTheYear | google_photos_rummy.py:185-186 | a datetime lies in the window exactly when its year is `year` |
| Rummy.ConcatMembers | google_photos_rummy.py:188-192 | gathering succeeds exactly when every response does, and then holds exactly their pictures |
| Rummy.ConcatFailsFirst | google_photos_rummy.py:188-192 | a failed gathering carries the error of the first failing response |
| Rummy.ConcatAppend | google_photos_rummy.py:188-192 | one more response appends its pictures after the earlier ones, or fails with its own error, or leaves an earlier failure unchanged |
| Rummy.FindPhotos | google_photos_rummy.py:188-192 | every candidate lies in the window |
| Rummy.FindPhotosGathers | google_photos_rummy.py:188-192 | gathering succeeds exactly when every repository does, and then holds exactly the pictures they returned |
| Rummy.FindPhotosFailsFirst | google_photos_rummy.py:188-192 | the error raised is that of the first repository that fails; all earlier ones succeeded |
| Rummy.FindPhotosAppend | google_photos_rummy.py:188-192 | one more repository appends its own pictures after those of the earlier repositories, keeping their order and multiplicity, or raises its own error |
| Rummy.DownloadTally | google_photos_rummy.py:198-202 | the download count never exceeds the sample size |
| Rummy.DownloadTallyAll | google_photos_rummy.py:198-202 | the count equals the sample size exactly when every download succeeds |
| Rummy.DownloadTallyNone | google_photos_rummy.py:198-202 | the count is zero exactly when no download succeeds |
| Rummy.Main | google_photos_rummy.py:173-203 | with downloads that never raise, `main` fails exactly when gathering the year's pictures fails; otherwise the candidates are what gathering returned, all from `year`; the sample is `select_random_pictures` of them, `min(sample_size, candidates)` long; the reported count is the number of successful downloads of the sample |
| Rummy.MainReports | google_photos_rummy.py:173-203 | with downloads that never raise, `main` fails exactly when some repository's fetch of the year fails, with the first failure; the candidates are exactly the pictures the repositories returned; the count equals the sample size exactly when every download succeeded |

## Left out

- OAuth (`authenticate`, lines 85-91) is left out: the credentials only reach the HTTP headers. That includes the noted overwriting of one account's credentials by the next (line 44).
- The HTTP requests, responses and JSON decoding are replaced by the sequence of listing responses. Transport errors, a missing `mediaItems` key and the truthiness of a failed response are not modelled.
- `download_picture` and `FilePicture.download` (lines 93-107, 167-170) are file and network I/O. A local copy is taken to succeed; the outcome of each remote download is a parameter.
- `FilePicture.date` (lines 156-165) reads EXIF data or the modification time. The date is part of each file entry, and the debugger call in its error path is left out. So are the raises of its fallback: `self.path.stat()` at line 165 raises for a dangling symlink the glob yielded or a file removed after the glob, and `fromtimestamp` raises on an out-of-range modification time. The filter at line 148 evaluates that date, so in the source a local fetch can raise; `Rummy.FetchFrom`'s "a local one never raises" holds for the model only.
- The interactive prompts, the repository `create` factories and the script entry point (lines 16-37, 128-136, 229-255) are left out.
- `tqdm` progress bars and `print` calls are output only.
- `main`'s `max_width`, `max_height` and `output_dir` only reach the downloads, so `Rummy.Main` does not take them.
- Rummy.Main: a download is either counted or not, and never raises. In the source, `download_picture` can raise out of `main`:
  - the `mkdir` at line 94 and the metadata `requests.get` at line 96 sit outside the `try`;
  - the handler at line 105 calls `resp.json()` again, which raises on a non-JSON error page, or when line 100 has already rebound `resp` to the image response and the write at lines 101-102 failed;
  - `FilePicture.download` (lines 167-170) has no `try` around its `mkdir` and `shutil.copy2`.

  So `main` can also fail after gathering succeeded, and the model does not promise anything about those runs.
- Rummy.MainReports: "fails exactly when some repository's fetch fails" covers gathering only. The raises out of the downloads listed under `Rummy.Main` are not modelled.
- `cached_property` memoisation is left out: a picture's date is computed once, when the picture is made.
- Timestamps.ParseCreationTime: accepts only fixed-width fields (four-digit year, two-digit fields, six fraction digits). `strptime` also accepts narrower fields, such as a one-digit month, or fewer fraction digits.
- Timestamps.ParseWhole: accepts only ASCII digits in fixed-width fields. `strptime` also accepts a day written as a space and one digit (`2023-01- 5T03:04:05Z`), and one-digit month, hour, minute and second fields. Where its pattern for a field uses `\d`, a non-ASCII Unicode decimal digit is accepted too and read with `int`. In a fixed-width text those places are the four year digits and the second digit of the day (after a `1` or `2`), the hour (after a `0` or `1`), the minute and the second. The month, the first digit of each two-digit field, and the fraction digits accept ASCII only. The model rejects such texts; the source parses them.
- Timestamps.ParseFraction: the same narrowing as `Timestamps.ParseWhole`, and it also takes exactly six fraction digits where `%f` accepts one to six.
- GooglePhotos.PagingForwardsTokens: `Run.requests` records which token each request carries. The responses are indexed by position, so a response does not depend on the token sent, and this property is bookkeeping about the request sequence, not about what the service returns for it.
- GooglePhotos.GetPictures: requires the last response to carry no token. A listing that goes on past the page where the loop breaks (a gathered picture older than `min_date`, lines 76-77) is modelled by the responses up to that page followed by one response without a token, which the loop never requests. Only a listing that never ends and never brings a picture old enough makes the source loop forever, and that is not modelled.
- Files.GetPictures: matches on the name's ending only. Directories named `*.jpg`, hidden-file handling and platform case-folding of the glob are not modelled.
- Sampler.DrawsFollowTheWeights: states which candidate each draw returns for each random value. It says nothing about the probability distribution of the sample.
- Sampler.Weights: exact rational arithmetic replaces floating point. The rounding of `random() * total` and of the running totals is not modelled.
- Sampler.Weights: its fallback weight 0.0 is for a date missing from the counter. That cannot happen (`Sampler.DateCountsOfPictures`).
