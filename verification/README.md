# ImageDL, modelled in Dafny

ImageDL downloads images from many sites. Each downloader pages through a source, decides
for every post whether it is too old (gathering stops), fails the size or score check (the
post is skipped) or is offered to `Add` (whose false answer stops gathering). Resolvers turn
a post url into its images, record types derive values from decoded posts, and a
near-duplicate check compares stored images by aspect ratio and thumbnail bits.

This project models that core as immutable datatypes and pure functions:

- `Wrappers`: `Option`, `Result` and the .NET exceptions the core raises.
- `Text`: the .NET string operations the core relies on. These are `IndexOf`, `Split`
  (empty fields kept), `Trim`/`TrimStart`/`TrimEnd`, `Replace(pat, "")`,
  `Convert.ToInt32`/`ToUInt64`, `int.TryParse` and decimal rendering.
- `ImageComparers`: `ImageDetails`, its thumbnail size, and `Equals(other, percentage)`.
  Float division is modelled as a real extended with infinities and NaN, so zero heights
  need no precondition.
- `Client`: `ImageDownloaderClient`.
  - `RemoveQuery` and `GetReq`.
  - The `GetText` retry loop against a server given as the response to the n-th request.
  - `GetHtml`.
  - The gatherer registry.
- `Gathering`: the page loop every downloader shares.
  - A `Pager` bundles a source's rules: the pagination condition, how the cursor advances,
    how a failure is retried, how the key (token, id, query hash) is obtained, and the
    per-record verdict (`Stop`, `Skip`, `Offer`, `Fault`).
  - `Gather` runs the loop against a given sequence of responses.
  - `ScanPage` is the `foreach` over one page.
- Site modules. Each instantiates the loop with the site's rules and proves the site's
  promises.
  - `DeviantArt`: the older downloader, with its scraping and API loops.
  - `DeviantArtCore`: the core-library downloader, with its concrete `Add`.
  - `DeviantArtPosts`: the finishing pass, which deduplicates by source and sorts by
    favourites.
  - `Instagram`, `Pinterest`, `AnimePictures`, `FourChan` and `Reddit`.
- `Resolving`: the shared resolver decision tree.
  - The query is stripped, and an image path is answered verbatim.
  - Otherwise the id after a marker is looked up.
  - Anything else is not found or unknown.
  - It also holds the marker-and-quote cut used to read ids out of pages.
- `Gatherers`: the Moebooru and Vsco gatherers.
- Record types:
  - `FourChanPosts`: the sentinels, links and creation time of `FourChanPost`.
  - `DanbooruPosts`: the tag indexer and the space-separated id, favourite and pool lists.
- `JsonUtils`: the property-name writer and the recursive HTML-node conversion, over an
  abstract node tree.
- `NumberBox`: the pure logic of the integer input box. This is the clamp, the up and down
  buttons, the typing filter, the paste splice and the maximum length.

The network is replaced by given responses. `Add`, `HasValidSize`/`FitsSizeRequirements`,
`IsImagePath`, `UrlEncode`, `HtmlDecode` and the post lookups are function parameters,
because their bodies are not part of this model. The one exception is the core DeviantArt
downloader's `Add`, which is written out. Exceptions are `Err` values. Every request a
download loop makes returns a `Result`: the page requests, the re-fetch of a post by id
(Anime-Pictures, Instagram), and the profile, script and board pages read for a key
(Instagram, Pinterest). So an exception raised by any of them escapes as it does in the
source. The url resolvers' lookups are the exception; see "## Left out".

## Model

| member | source | states |
|---|---|---|
| ImageComparers.CeilSqrt | src/ImageDL.Core/Classes/ImageComparers/ImageDetails.cs:45 | the result is the least natural whose square reaches the bit count, i.e. the ceiling of the square root |
| ImageComparers.ThumbnailSizeOfSquare | src/ImageDL.Core/Classes/ImageComparers/ImageDetails.cs:45 | a hash of k² bits gives a thumbnail of side k |
| ImageComparers.Equals | src/ImageDL.Core/Classes/ImageComparers/ImageDetails.cs:56-81 | raises an invalid-operation error exactly when the thumbnail sizes differ; raises index-out-of-range exactly when a hash is shorter than size² and the gate is passed; true only past the gate with a positive size |
| ImageComparers.GateRejects | src/ImageDL.Core/Classes/ImageComparers/ImageDetails.cs:64-70 | when other's ratio is above this ratio·(2 − percentage) or below this ratio·percentage, the answer is false whatever the bits |
| ImageComparers.FullPercentageNeedsEqualRatio | src/ImageDL.Core/Classes/ImageComparers/ImageDetails.cs:64-70 | at percentage 1 a match needs equal aspect ratios, unless a 0-by-0 image makes a ratio NaN |
| ImageComparers.MatchIsAgreementShare | src/ImageDL.Core/Classes/ImageComparers/ImageDetails.cs:72-80 | past the gate, the answer is whether agreeing bits / size² reaches the percentage, and the count does not depend on argument order |
| ImageComparers.AgreementsBounded | src/ImageDL.Core/Classes/ImageComparers/ImageDetails.cs:72-79 | the agreement count is at most the number of positions compared |
| ImageComparers.AgreementsSymmetric | src/ImageDL.Core/Classes/ImageComparers/ImageDetails.cs:72-79 | the agreement count is symmetric in the two hashes |
| ImageComparers.AgreementsWithItself | src/ImageDL.Core/Classes/ImageComparers/ImageDetails.cs:72-79 | a hash agrees with itself at every position |
| ImageComparers.PercentageAboveOneNeverMatches | src/ImageDL.Core/Classes/ImageComparers/ImageDetails.cs:80 | a percentage above 1 never gives true |
| ImageComparers.SelfMatch | src/ImageDL.Core/Classes/ImageComparers/ImageDetails.cs:64-80 | an image of positive size with a square hash matches itself at every percentage in [0, 1] |
| ImageComparers.GateIsAsymmetric | src/ImageDL.Core/Classes/ImageComparers/ImageDetails.cs:67 | for ratios 1 and 0.9 at percentage 0.9 with identical hashes, a.Equals(b) is true and b.Equals(a) is false |
| ImageComparers.RatiosOneAndTwoNeverMatch | src/ImageDL.Core/Classes/ImageComparers/ImageDetails.cs:64-70 | images of ratios 1 and 2 never match at 0.95, in either order |
| Client.RemoveQuery | src/ImageDL/Classes/ImageDownloading/ImageDownloaderClient.cs:52-55 | the result is a prefix of the url holding no '?' or '#', cut exactly at the first of them |
| Client.RemoveQueryIdempotent | src/ImageDL/Classes/ImageDownloading/ImageDownloaderClient.cs:52-55 | stripping twice equals stripping once |
| Client.RemoveQueryAtMarker | src/ImageDL/Classes/ImageDownloading/ImageDownloaderClient.cs:52-55 | a clean url followed by a query or fragment comes back as the clean url |
| Client.GetReq | src/ImageDL/Classes/ImageDownloading/ImageDownloaderClient.cs:72-81 | the request targets the url, refers to itself, and uses GET unless a verb is given |
| Client.GetText | src/ImageDL/Classes/ImageDownloading/ImageDownloaderClient.cs:83-110 | at most `tries` requests; the first is sent without delay, and the one after the i-th rate-limited response waits wait·2^(i−1), 2 s being the default wait; only 421/429 retry; the first other response is returned with its status and success flag; if every attempt is rate-limited, an HttpRequestException is raised after exactly `tries` requests |
| Client.GetHtml | src/ImageDL/Classes/ImageDownloading/ImageDownloaderClient.cs:112-125 | the requests and delays of GetText: at most `tries` requests with the doubling delays; on success every earlier response was rate-limited; an HttpRequestException comes after exactly `tries` rate-limited responses; keeps status and success flag; the document is missing exactly when the fetch failed |
| Client.AddGatherer | src/ImageDL/Classes/ImageDownloading/ImageDownloaderClient.cs:127-130 | the registry grows by one entry at the end, the rest unchanged |
| Client.RemoveGatherer | src/ImageDL/Classes/ImageDownloading/ImageDownloaderClient.cs:132-135 | no entry of the type is left, every kept entry was there, and exactly the entries of that type are gone |
| Client.RemoveGathererAppend | src/ImageDL/Classes/ImageDownloading/ImageDownloaderClient.cs:127-135 | removal after adding equals the earlier removal, extended by the new entry when it is of another type (order kept) |
| Client.RemoveGathererKeepsOthers | src/ImageDL/Classes/ImageDownloading/ImageDownloaderClient.cs:132-135 | the count of every other type is unchanged |
| Client.RemoveGathererIdempotent | src/ImageDL/Classes/ImageDownloading/ImageDownloaderClient.cs:132-135 | removing a type twice equals removing it once |
| Gathering.ScanPage | src/ImageDL/Classes/ImageDownloading/Pinterest/PinterestImageDownloader.cs:124-138 | the walk of a page examines a prefix; it ends early only on a record whose verdict is Stop, on a Fault, or after an offer `Add` declined |
| Gathering.ScanPageOffers | src/ImageDL/Classes/ImageDownloading/Pinterest/PinterestImageDownloader.cs:124-138 | the posts given to `Add` are the offers among the examined records, and the list is what offering them in turn builds |
| Gathering.ScanPageAnswers | src/ImageDL/Classes/ImageDownloading/Pinterest/PinterestImageDownloader.cs:134-137 | every `Add` answered true except possibly the last, which answered false exactly when the page ended because of it |
| Gathering.ScanPageStopsLast | src/ImageDL/Classes/ImageDownloading/Pinterest/PinterestImageDownloader.cs:124-138 | only the last examined record can have stopped the walk |
| Gathering.OffersSplit | src/ImageDL/Classes/ImageDownloading/Pinterest/PinterestImageDownloader.cs:124-138 | the offers of concatenated records are the concatenated offers |
| Gathering.ReplayAppend | src/ImageDL/Classes/ImageDownloading/Pinterest/PinterestImageDownloader.cs:134 | offering a + b builds the list of offering b after a |
| Gathering.Gather | src/ImageDL/Classes/ImageDownloading/Pinterest/PinterestImageDownloader.cs:64-139 | never more requests than responses, all of them used when the run ran out of responses; it ends with `Enough` only once the list reaches the target; the list is the replay of the offered posts through `Add` |
| Gathering.FirstRequest | src/ImageDL/Classes/ImageDownloading/Pinterest/PinterestImageDownloader.cs:64-102 | the first request is sent only when the loop condition holds, at the starting cursor, with an obtained key |
| Gathering.RunTrace | src/ImageDL/Classes/ImageDownloading/Pinterest/PinterestImageDownloader.cs:64-139 | request k is sent from the state the earlier responses lead to, only while the loop condition holds; every earlier response let the loop continue; a NoMorePages end means the pagination condition failed |
| Gathering.RunStep | src/ImageDL/Classes/ImageDownloading/Pinterest/PinterestImageDownloader.cs:64-139 | between consecutive requests the state moves by exactly the response to the first, which was a fully walked page or a retried failure |
| Gathering.HaltCause | src/ImageDL/Classes/ImageDownloading/Pinterest/PinterestImageDownloader.cs:103-106 | each end has its cause: an unretried failure, a page with an old record, a declined `Add`, or a loop condition false from the start |
| Gathering.DeclinedAnswer | src/ImageDL/Classes/ImageDownloading/Pinterest/PinterestImageDownloader.cs:134-137 | a run `Add` ended had offers, and the last answer of their replay was false |
| Gathering.RaisedByThrown | src/ImageDL/Classes/ImageDownloading/AnimePictures/AnimePicturesImageDownloader.cs:46-76 | with no key to obtain and no faulting record, only a request's exception escapes |
| Gathering.RaisedByThrownOrFault | src/ImageDL/Classes/ImageDownloading/AnimePictures/AnimePicturesImageDownloader.cs:46-76 | with no key to obtain, an exception that escapes was raised by the last request, or by a record of the last page whose verdict raises it |
| Gathering.KeyKept | src/ImageDL/Classes/ImageDownloading/Pinterest/PinterestImageDownloader.cs:77-81 | a source that never retries and starts with a key never obtains another and sends every request with it |
| Gathering.ScanBounded | src/ImageDL.Core/Classes/ImageDownloaders/DeviantArt/DeviantArtImageDownloader.cs:196-201 | with an `Add` that stops on reaching the target, a page never takes the list past it |
| Gathering.GatherBounded | src/ImageDL.Core/Classes/ImageDownloaders/DeviantArt/DeviantArtImageDownloader.cs:163-201 | with such an `Add`, a whole run never takes the list past the target |
| Resolving.AfterMarker | src/ImageDL/Classes/ImageDownloading/Moebooru/MoebooruImageGatherer.cs:41-43 | present exactly when the url contains the marker (ignoring case), and then a suffix after it |
| Resolving.FirstSegment | src/ImageDL/Classes/ImageDownloading/Moebooru/MoebooruImageGatherer.cs:43 | a prefix of the text holding no '/', cut at the first '/' |
| Resolving.FirstNonEmptySegment | src/ImageDL/Classes/ImageDownloading/Instagram/InstagramImageDownloader.cs:257 | a non-empty segment without '/'; raises index-out-of-range exactly when the text is all slashes |
| Resolving.SegmentRoundTrip | src/ImageDL/Classes/ImageDownloading/Moebooru/MoebooruImageGatherer.cs:41-43 | in prefix + marker + id + tail, the text after the marker starts with id and its first segment is id |
| Resolving.RequestedId | src/ImageDL/Classes/ImageDownloading/Instagram/InstagramImageDownloader.cs:250-258 | an image path or a url without the marker asks for no id; an id asked for follows the marker and holds no '/' |
| Resolving.ResolvePost | src/ImageDL/Classes/ImageDownloading/Pinterest/PinterestImageDownloader.cs:197-214 | an image path is answered with the stripped url; otherwise the looked-up post's images, or not found |
| Resolving.GatherFromMarker | src/ImageDL/Classes/ImageDownloading/Moebooru/MoebooruImageGatherer.cs:38-50 | unknown exactly when the marker is missing; otherwise the content urls of the post named after it, or not found |
| Resolving.ResolvedId | src/ImageDL/Classes/ImageDownloading/Pinterest/PinterestImageDownloader.cs:199-206 | a url prefix + marker + id + tail makes the resolver look up exactly id |
| Resolving.CutAsWritten | src/ImageDL/Classes/ImageDownloading/Pinterest/PinterestImageDownloader.cs:153-155 | the cut as the source writes it; any error is an argument-out-of-range, and the value holds no closing character |
| Resolving.Cut | src/ImageDL/Classes/ImageDownloading/Pinterest/PinterestImageDownloader.cs:153-155 | the corrected cut: a value is the text between the first marker and the next closing character; a missing marker is an error |
| Resolving.CutAgreesWhenFound | src/ImageDL/Classes/ImageDownloading/Pinterest/PinterestImageDownloader.cs:153-155 | where the marker is present the two cuts agree |
| Resolving.CutAsWrittenWithoutMarker | src/ImageDL/Classes/ImageDownloading/Pinterest/PinterestImageDownloader.cs:153-155 | without the marker, the cut as written reads from offset marker length − 1 |
| Resolving.CutRoundTrip | src/ImageDL/Classes/ImageDownloading/Pinterest/PinterestImageDownloader.cs:153-155 | from a + marker + v + stop + b the cut gives v back |
| Gatherers.IsFromMoebooru | src/ImageDL/Classes/ImageDownloading/Moebooru/MoebooruImageGatherer.cs:33-36 | true exactly when the site name occurs in the host ignoring case |
| Gatherers.HostNamesIgnoresCase | src/ImageDL/Classes/ImageDownloading/Moebooru/MoebooruImageGatherer.cs:33-36 | hosts equal up to case are claimed alike |
| Gatherers.MoebooruImages | src/ImageDL/Classes/ImageDownloading/Moebooru/MoebooruImageGatherer.cs:38-50 | unknown exactly when the stripped url lacks the search marker; otherwise found or not found, never an image path |
| Gatherers.MoebooruImagesOfPostUrl | src/ImageDL/Classes/ImageDownloading/Moebooru/MoebooruImageGatherer.cs:40-47 | a post url gathers the content urls of the post with that id, or not found when the lookup fails |
| Gatherers.IsFromVsco | src/ImageDL/Classes/ImageDownloading/Vsco/VscoImageGatherer.cs:15-18 | true exactly when "vsco.co" occurs in the host ignoring case |
| Gatherers.VscoImages | src/ImageDL/Classes/ImageDownloading/Vsco/VscoImageGatherer.cs:20-33 | unknown exactly when the stripped url lacks "/media/" |
| Gatherers.VscoImagesOfMediaUrl | src/ImageDL/Classes/ImageDownloading/Vsco/VscoImageGatherer.cs:22-30 | a media url gathers the content urls of the post with that id, or not found |
| DeviantArtPosts.DedupBySource | src/ImageDL/Classes/ImageDownloading/DeviantArt/DeviantArtImageDownloader.cs:93-96 | the same set of sources, no source twice |
| DeviantArtPosts.DedupKeepsFirst | src/ImageDL/Classes/ImageDownloading/DeviantArt/DeviantArtImageDownloader.cs:93-96 | each kept post is the first with its source, and the kept posts are a subsequence of the input |
| DeviantArtPosts.SortByFavoritesCorrect | src/ImageDL/Classes/ImageDownloading/DeviantArt/DeviantArtImageDownloader.cs:95 | the sort orders by descending favourites, is a permutation, and keeps ties in input order |
| DeviantArtPosts.OrderAndRemoveDuplicates | src/ImageDL/Classes/ImageDownloading/DeviantArt/DeviantArtImageDownloader.cs:93-96 | the result covers exactly the sources of the input |
| DeviantArtPosts.OrderAndRemoveDuplicatesCorrect | src/ImageDL/Classes/ImageDownloading/DeviantArt/DeviantArtImageDownloader.cs:93-96 | sorted by descending favourites, one post per source, each the first with its source, a permutation of the deduplicated list, ties in gathering order |
| DeviantArtPosts.SortKeepsDistinctSources | src/ImageDL/Classes/ImageDownloading/DeviantArt/DeviantArtImageDownloader.cs:95 | sorting a list with distinct sources keeps them distinct |
| DeviantArtPosts.CreateContentLink | src/ImageDL.Core/Classes/ImageDownloaders/DeviantArt/DeviantArtImageDownloader.cs:141-145 | the score is the favourites exactly when they are not negative, otherwise the post id |
| DeviantArt.GenerateTags | src/ImageDL/Classes/ImageDownloading/DeviantArt/DeviantArtImageDownloader.cs:122-130 | null reference exactly for null tags without an age limit; otherwise no '+' at either end |
| DeviantArt.GenerateTagsAge | src/ImageDL/Classes/ImageDownloading/DeviantArt/DeviantArtImageDownloader.cs:122-130 | the age filter ends the tags exactly when the limit is positive; otherwise the trimmed encoded tags |
| DeviantArt.AsWrittenScrapingRefetches | src/ImageDL/Classes/ImageDownloading/DeviantArt/DeviantArtImageDownloader.cs:173 | as written, n empty pages make n requests all at offset 0 and the loop is still going |
| DeviantArt.ScrapingStopsAfterEmptyPage | src/ImageDL/Classes/ImageDownloading/DeviantArt/DeviantArtImageDownloader.cs:173 | corrected, an empty first page ends scraping after one request |
| DeviantArt.ScrapingOffsets | src/ImageDL/Classes/ImageDownloading/DeviantArt/DeviantArtImageDownloader.cs:173-179 | corrected, the first request is at 0 and each further one follows a page of ≥ 20 posts, that many posts later |
| DeviantArt.ScrapingRules | src/ImageDL/Classes/ImageDownloading/DeviantArt/DeviantArtImageDownloader.cs:176-206 | a scraped page offers exactly its posts that fit; no post stops by age; a failed fetch ends the loop |
| DeviantArt.ApiDecide | src/ImageDL/Classes/ImageDownloading/DeviantArt/DeviantArtImageDownloader.cs:240-256 | an API result stops exactly when it is old; a recent one without content raises a null reference; it is offered, as its post, exactly when the reference rule accepts it |
| DeviantArt.OffersAccepted | src/ImageDL/Classes/ImageDownloading/DeviantArt/DeviantArtImageDownloader.cs:240-256 | the API verdicts offer exactly the posts the reference acceptance rule accepts |
| DeviantArt.ApiPageRules | src/ImageDL/Classes/ImageDownloading/DeviantArt/DeviantArtImageDownloader.cs:240-256 | an API page offers the accepted posts examined; it stops at the first old post; every earlier post is recent with content |
| DeviantArt.TokenOutcome | src/ImageDL/Classes/ImageDownloading/DeviantArt/DeviantArtImageDownloader.cs:216-224 | a token exactly when the reply had one; no token raises an invalid-operation error |
| DeviantArt.AsWrittenApiRefetches | src/ImageDL/Classes/ImageDownloading/DeviantArt/DeviantArtImageDownloader.cs:214 | as written, empty results reporting no more pages are fetched again at offset 0 after every response |
| DeviantArt.ApiStopsAfterLastPage | src/ImageDL/Classes/ImageDownloading/DeviantArt/DeviantArtImageDownloader.cs:214 | corrected, a result with no more pages ends the loop after its request |
| DeviantArt.ApiOffsets | src/ImageDL/Classes/ImageDownloading/DeviantArt/DeviantArtImageDownloader.cs:214 | the first API request is at 0; after a page with more, the next is that many results later |
| DeviantArt.ApiRetry | src/ImageDL/Classes/ImageDownloading/DeviantArt/DeviantArtImageDownloader.cs:229-236 | a retried failure mentioned "access_token"; the next request is at the same offset with a newly obtained token |
| DeviantArt.ApiKeys | src/ImageDL/Classes/ImageDownloading/DeviantArt/DeviantArtImageDownloader.cs:216-224 | each request carries the current key, or the next token when the key is blank |
| DeviantArt.NoTokenRaises | src/ImageDL/Classes/ImageDownloading/DeviantArt/DeviantArtImageDownloader.cs:216-224 | a blank key with no token obtainable raises before any request and keeps the list |
| DeviantArt.Outcome | src/ImageDL/Classes/ImageDownloading/DeviantArt/DeviantArtImageDownloader.cs:75-91 | the list unless an exception other than a 403 web error escaped the loop |
| DeviantArt.GatherPostsAsync | src/ImageDL/Classes/ImageDownloading/DeviantArt/DeviantArtImageDownloader.cs:75-91 | never lets a 403 web error through; without credentials, or with credentials whose token request returns no token, it is the outcome of scraping with the tag query; a token request that raises gives that error, or an empty list for a 403 |
| DeviantArt.ForbiddenKeepsGathered | src/ImageDL/Classes/ImageDownloading/DeviantArt/DeviantArtImageDownloader.cs:75-91 | without credentials the result is an error exactly when scraping raised something other than a 403; otherwise, a 403 included, it is every post offered before the end |
| DeviantArt.CredentialedUsesApi | src/ImageDL/Classes/ImageDownloading/DeviantArt/DeviantArtImageDownloader.cs:75-91 | with credentials and a token the API loop runs: an error exactly when it raised something other than a 403; otherwise the list built by offering its posts in order |
| DeviantArt.NoTagsRaises | src/ImageDL/Classes/ImageDownloading/DeviantArt/DeviantArtImageDownloader.cs:122-144 | no tags and no age limit: the first query raises a null reference, before any post is gathered, on either path |
| DeviantArt.ApiFirstRetryRaises | src/ImageDL/Classes/ImageDownloading/DeviantArt/DeviantArtImageDownloader.cs:229-235 | an "access_token" failure on the first API request raises a null reference after that one request |
| DeviantArtCore.ReplayAppendUntil | src/ImageDL.Core/Classes/ImageDownloaders/DeviantArt/DeviantArtImageDownloader.cs:196-201 | the concrete `Add` appends every offered post and says stop exactly when the count equals the amount |
| DeviantArtCore.GatherPostsAsync | src/ImageDL.Core/Classes/ImageDownloaders/DeviantArt/DeviantArtImageDownloader.cs:78-121 | empty when the token request or the chosen loop raised; otherwise the posts of exactly the sources the loop offered, each the first post offered with its source, at most the amount, sorted by descending favourites |
| DeviantArtCore.Collected | src/ImageDL.Core/Classes/ImageDownloaders/DeviantArt/DeviantArtImageDownloader.cs:100-114 | the posts the loop the token selects offered, or nothing when that loop raised; never more than the amount |
| DeviantArtCore.OrderAndRemoveDuplicatesShorter | src/ImageDL.Core/Classes/ImageDownloaders/DeviantArt/DeviantArtImageDownloader.cs:120 | the finishing pass never lengthens the list |
| DeviantArtCore.ExceptionLeavesNothing | src/ImageDL.Core/Classes/ImageDownloaders/DeviantArt/DeviantArtImageDownloader.cs:81-120 | when the token request or the chosen loop raises, nothing is returned |
| DeviantArtCore.NoQueryLeavesNothing | src/ImageDL.Core/Classes/ImageDownloaders/DeviantArt/DeviantArtImageDownloader.cs:143-155 | no tags, no age limit and no user name: the query raises, and the result is empty |
| DeviantArtCore.GenerateQuery | src/ImageDL.Core/Classes/ImageDownloaders/DeviantArt/DeviantArtImageDownloader.cs:147-159 | null reference exactly when nothing is there to trim; otherwise no '+' at either end |
| DeviantArtCore.GenerateQueryAge | src/ImageDL.Core/Classes/ImageDownloaders/DeviantArt/DeviantArtImageDownloader.cs:150-153 | a positive age limit and no user name: the query ends with the age filter |
| DeviantArtCore.GenerateQueryUser | src/ImageDL.Core/Classes/ImageDownloaders/DeviantArt/DeviantArtImageDownloader.cs:154-158 | with a user name the query ends with "by:" and the encoded name |
| DeviantArtCore.GenerateQueryTagsOnly | src/ImageDL.Core/Classes/ImageDownloaders/DeviantArt/DeviantArtImageDownloader.cs:147-159 | with nothing appended, the query is the trimmed encoded tags |
| DeviantArtCore.ScrapingStopsAtAmount | src/ImageDL.Core/Classes/ImageDownloaders/DeviantArt/DeviantArtImageDownloader.cs:160-216 | the scraped list is exactly the offered posts, never above the amount, and `Add` ends it only at the amount |
| DeviantArtCore.ApiStopsAtAmount | src/ImageDL.Core/Classes/ImageDownloaders/DeviantArt/DeviantArtImageDownloader.cs:217-263 | the same for the API list |
| DeviantArtCore.ScrapedPageOffersFitting | src/ImageDL.Core/Classes/ImageDownloaders/DeviantArt/DeviantArtImageDownloader.cs:191-194 | a scraped page offers exactly the fitting posts, with no score or age check |
| DeviantArtCore.ScrapingOffsets | src/ImageDL.Core/Classes/ImageDownloaders/DeviantArt/DeviantArtImageDownloader.cs:209-213 | the first request is at 0; each next follows a page of ≥ 22 posts, at the offset plus that count; a loop out of pages ended on a page below 22 |
| DeviantArtCore.ApiOffsets | src/ImageDL.Core/Classes/ImageDownloaders/DeviantArt/DeviantArtImageDownloader.cs:256-260 | the first at 0; each next follows a result with more pages, at the offset plus the result count; a loop out of pages ended on a result with no more |
| DeviantArtCore.ApiLastPage | src/ImageDL.Core/Classes/ImageDownloaders/DeviantArt/DeviantArtImageDownloader.cs:256 | a loop that ran out of pages ended on a result reporting no more |
| Instagram.UserIdAndRhx | src/ImageDL/Classes/ImageDownloading/Instagram/InstagramImageDownloader.cs:208-229 | unsuccessful page or age restriction raises an HttpRequestException; a value needs both markers, an id within UInt64 and a value without '"' |
| Instagram.UserIdAndRhxRoundTrip | src/ImageDL/Classes/ImageDownloading/Instagram/InstagramImageDownloader.cs:221-227 | a page stating the id and value after their markers gives them back |
| Instagram.AsWrittenReadsMarkerlessProfile | src/ImageDL/Classes/ImageDownloading/Instagram/InstagramImageDownloader.cs:221-227 | as written, a page with neither marker yields id 42 and "abc42"; corrected, it raises |
| Instagram.AsWrittenReadsPastMissingMarkers | src/ImageDL/Classes/ImageDownloading/Instagram/InstagramImageDownloader.cs:221-227 | on any readable page without the id marker, the reads as written return what follows the marker lengths; corrected, they raise |
| Instagram.FirstNaming | src/ImageDL/Classes/ImageDownloading/Instagram/InstagramImageDownloader.cs:163-165 | the index of the first link naming the script, or none when no link does |
| Instagram.ApiKey | src/ImageDL/Classes/ImageDownloading/Instagram/InstagramImageDownloader.cs:147-177 | a cached hash costs no request; a home-page request that raises lets that exception escape after one request, and a script request that raises after two; an unsuccessful home page raises after one request, a missing script link raises "no matching element" after one, an unsuccessful script raises after two; a hash needs the marker in the script and holds no '"' |
| Instagram.AsWrittenReadsMarkerlessScript | src/ImageDL/Classes/ImageDownloading/Instagram/InstagramImageDownloader.cs:174-176 | as written, a script without the marker yields hash "7"; corrected, it raises |
| Instagram.ObtainKey | src/ImageDL/Classes/ImageDownloading/Instagram/InstagramImageDownloader.cs:74-88 | the id is read only while it is 0 and the hash only while none is cached; errors of the profile request and read propagate |
| Instagram.FittingChildren | src/ImageDL/Classes/ImageDownloading/Instagram/InstagramImageDownloader.cs:119-129 | exactly the children that fit, none added |
| Instagram.Decide | src/ImageDL/Classes/ImageDownloading/Instagram/InstagramImageDownloader.cs:108-137 | a shortcode raises exactly when its lookup finds no post, with the lookup's own exception or a null reference; it stops exactly at an old post; an offer has enough likes and keeps the shortcode |
| Instagram.DecideAgrees | src/ImageDL/Classes/ImageDownloading/Instagram/InstagramImageDownloader.cs:108-137 | a failed lookup faults, an old post stops, and an offer is the reference acceptance, whose children all fit |
| Instagram.OffersAccepted | src/ImageDL/Classes/ImageDownloading/Instagram/InstagramImageDownloader.cs:108-137 | the verdicts offer exactly the accepted posts of the shortcodes |
| Instagram.InstagramPageRules | src/ImageDL/Classes/ImageDownloading/Instagram/InstagramImageDownloader.cs:108-137 | a page offers the accepted posts among those examined, not counting the one that ended it early; that one was old, or its lookup found nothing and it raised the lookup's exception or a null reference |
| Instagram.CursorFollowsLast | src/ImageDL/Classes/ImageDownloading/Instagram/InstagramImageDownloader.cs:69-71 | between iterations the cursor is the last page's end cursor, or the empty start cursor while no page has arrived; a failure before any page never moves it, because the retry then raises |
| Instagram.InstagramAfterPage | src/ImageDL/Classes/ImageDownloading/Instagram/InstagramImageDownloader.cs:71 | after a page, the next request is at that page's end cursor; the page said it had a next page, or its end cursor was empty |
| Instagram.InstagramRetry | src/ImageDL/Classes/ImageDownloading/Instagram/InstagramImageDownloader.cs:91-105 | a failure followed by another request mentioned "query_hash" and came after a page; the request is repeated at the same cursor with a newly fetched hash |
| Instagram.InstagramFirstRetryRaises | src/ImageDL/Classes/ImageDownloading/Instagram/InstagramImageDownloader.cs:69-103 | a "query_hash" failure on the first request ends the loop with a null reference after that one request, and gathering returns that error |
| Instagram.ApiKeyRoundTrip | src/ImageDL/Classes/ImageDownloading/Instagram/InstagramImageDownloader.cs:147-177 | a script a + marker + hash + '"' + b, with no marker in a, gives that hash after two requests |
| Instagram.InstagramFirstRequest | src/ImageDL/Classes/ImageDownloading/Instagram/InstagramImageDownloader.cs:71-88 | the first request is at the empty cursor with the profile's id and any cached hash; a failed profile read raises before any request |
| Instagram.GatherPostsAsync | src/ImageDL/Classes/ImageDownloading/Instagram/InstagramImageDownloader.cs:65-140 | an error exactly when the loop raised; otherwise the replay of the offered posts |
| Instagram.InstagramImages | src/ImageDL/Classes/ImageDownloading/Instagram/InstagramImageDownloader.cs:248-265 | an image path is answered with the url stripped of its query; no "/p/" gives not found; the only error is an all-slash id |
| Instagram.InstagramImagesOfPostUrl | src/ImageDL/Classes/ImageDownloading/Instagram/InstagramImageDownloader.cs:248-265 | a post url resolves to the looked-up post's images, or not found |
| Pinterest.BoardId | src/ImageDL/Classes/ImageDownloading/Pinterest/PinterestImageDownloader.cs:145-156 | an unsuccessful page raises; otherwise the corrected cut after the board-id marker |
| Pinterest.BoardIdRoundTrip | src/ImageDL/Classes/ImageDownloading/Pinterest/PinterestImageDownloader.cs:153-155 | a board page a + marker + id + '"' + b gives id |
| Pinterest.AsWrittenReadsMarkerlessBoard | src/ImageDL/Classes/ImageDownloading/Pinterest/PinterestImageDownloader.cs:153-155 | as written, a page without the marker yields id "7"; corrected, it raises |
| Pinterest.Decide | src/ImageDL/Classes/ImageDownloading/Pinterest/PinterestImageDownloader.cs:124-138 | a pin stops exactly when it is old, is offered as itself exactly when the reference rule accepts it, and never raises |
| Pinterest.Accepted | src/ImageDL/Classes/ImageDownloading/Pinterest/PinterestImageDownloader.cs:124-138 | the reference rule: every accepted pin is one of the page's pins, recent and fitting |
| Pinterest.OffersAccepted | src/ImageDL/Classes/ImageDownloading/Pinterest/PinterestImageDownloader.cs:124-138 | the verdicts offer exactly the accepted pins |
| Pinterest.PinterestPageRules | src/ImageDL/Classes/ImageDownloading/Pinterest/PinterestImageDownloader.cs:124-138 | a page offers the accepted pins examined and stops early only at an old pin |
| Pinterest.ObtainKey | src/ImageDL/Classes/ImageDownloading/Pinterest/PinterestImageDownloader.cs:76-95 | an unknown search type raises an invalid-operation error; for a board, a page request that raises lets that exception escape, an unsuccessful page raises an HttpRequestException, a page without the board-id marker raises argument-out-of-range, and an id is read only after the marker and holds no '"' |
| Pinterest.ObtainKeyRoundTrip | src/ImageDL/Classes/ImageDownloading/Pinterest/PinterestImageDownloader.cs:76-81 | a successful board page a + marker + id + '"' + b, with no marker in a, gives that id |
| Pinterest.Bookmarks | src/ImageDL/Classes/ImageDownloading/Pinterest/PinterestImageDownloader.cs:64-109 | the first request has the empty bookmark, each later one the previous response's bookmark, never "-end" |
| Pinterest.InvalidMethodRaises | src/ImageDL/Classes/ImageDownloading/Pinterest/PinterestImageDownloader.cs:93-94 | an unknown search type raises before any request |
| Pinterest.BoardIdFetchedOnce | src/ImageDL/Classes/ImageDownloading/Pinterest/PinterestImageDownloader.cs:76-81 | a board search fetches the id at most once and sends every request with it; user and tag searches never fetch it |
| Pinterest.GatherPostsAsync | src/ImageDL/Classes/ImageDownloading/Pinterest/PinterestImageDownloader.cs:60-140 | an error exactly when the loop raised; otherwise the replay of the offered pins |
| Pinterest.PinterestImages | src/ImageDL/Classes/ImageDownloading/Pinterest/PinterestImageDownloader.cs:197-214 | an image path is answered with the url stripped of its query; no "/pin/" gives not found |
| Pinterest.PinterestImagesOfPinUrl | src/ImageDL/Classes/ImageDownloading/Pinterest/PinterestImageDownloader.cs:197-214 | a pin url resolves to the looked-up pin's images, or not found |
| AnimePictures.Decide | src/ImageDL/Classes/ImageDownloading/AnimePictures/AnimePicturesImageDownloader.cs:61-75 | a result stops exactly when it is old; it raises exactly when it is wanted and its fetch by id raises; it is offered exactly when it is wanted and the fetch returns |
| AnimePictures.OffersAccepted | src/ImageDL/Classes/ImageDownloading/AnimePictures/AnimePicturesImageDownloader.cs:61-75 | the verdicts offer exactly the fetched posts of the results the reference rule accepts, in order |
| AnimePictures.AnimePageRules | src/ImageDL/Classes/ImageDownloading/AnimePictures/AnimePicturesImageDownloader.cs:61-75 | a page offers the accepted results examined; it stops early only at an old result, or at a wanted result whose fetch by id raised that exception |
| AnimePictures.PageIndices | src/ImageDL/Classes/ImageDownloading/AnimePictures/AnimePicturesImageDownloader.cs:46 | request k asks for page k, and each request after the first follows a page of at least 60 posts |
| AnimePictures.PageCursor | src/ImageDL/Classes/ImageDownloading/AnimePictures/AnimePicturesImageDownloader.cs:46 | request k asks for page k |
| AnimePictures.GatherPostsAsync | src/ImageDL/Classes/ImageDownloading/AnimePictures/AnimePicturesImageDownloader.cs:42-90 | an error exactly when the loop raised: either the last page request raised it, or the fetch by id of a wanted result on the last page did; otherwise the replay of what was offered |
| AnimePictures.RaisedAt | src/ImageDL/Classes/ImageDownloading/AnimePictures/AnimePicturesImageDownloader.cs:42-90 | an exception that ends the loop comes from the last page request or from a fetch by id for a wanted result of the last page |
| AnimePictures.AnimePicturesImages | src/ImageDL/Classes/ImageDownloading/AnimePictures/AnimePicturesImageDownloader.cs:97-114 | an image path is answered with the url stripped of its query; no "/view_post/" gives not found |
| AnimePictures.AnimePicturesImagesOfPostUrl | src/ImageDL/Classes/ImageDownloading/AnimePictures/AnimePicturesImageDownloader.cs:97-114 | a post url resolves to the looked-up post's images, or not found |
| FourChan.Decide | src/ImageDL/Classes/ImageDownloading/4Chan/FourChanImageDownloader.cs:83-96 | the per-post rule never faults |
| FourChan.OffersAccepted | src/ImageDL/Classes/ImageDownloading/4Chan/FourChanImageDownloader.cs:83-96 | the rule offers exactly the accepted posts, in order: created at or after the cutoff, not stickied, archived or deleted, and of a valid size with a missing dimension as −1 |
| FourChan.OfferedWhenAccepted | src/ImageDL/Classes/ImageDownloading/4Chan/FourChanImageDownloader.cs:83-96 | one post is offered, as itself, exactly when the reference rule accepts it |
| FourChan.StopsExactlyWhenOld | src/ImageDL/Classes/ImageDownloading/4Chan/FourChanImageDownloader.cs:85-88 | a post stops its thread exactly when it was created before the cutoff |
| FourChan.Walk | src/ImageDL/Classes/ImageDownloading/4Chan/FourChanImageDownloader.cs:79-101 | a thread is walked while below the target; it ends exhausted, full, at an old post, or refused by `Add`; the list is the replay of the offers |
| FourChan.WalkOffers | src/ImageDL/Classes/ImageDownloading/4Chan/FourChanImageDownloader.cs:79-101 | the posts given to `Add` are the offers among the examined posts |
| FourChan.WalkOffersAccepted | src/ImageDL/Classes/ImageDownloading/4Chan/FourChanImageDownloader.cs:79-101 | the posts given to `Add` are the accepted ones among the posts examined |
| FourChan.WalkStopsOnlyLast | src/ImageDL/Classes/ImageDownloading/4Chan/FourChanImageDownloader.cs:84-88 | only the last examined post can be old |
| FourChan.WalkOfAcceptingThread | src/ImageDL/Classes/ImageDownloading/4Chan/FourChanImageDownloader.cs:81-100 | with no old post and an accepting `Add`, a thread is walked to its end or until full |
| FourChan.ProcessThread | src/ImageDL/Classes/ImageDownloading/4Chan/FourChanImageDownloader.cs:79-103 | answers true after an old post, false after a refusal, otherwise whether the list is below the target |
| FourChan.Threads | src/ImageDL/Classes/ImageDownloading/4Chan/FourChanImageDownloader.cs:60-69 | the threads of a page fetch no further page, the list is the replay of their offers, and the only error is the argument-out-of-range of a thread without posts |
| FourChan.OldPostEndsOnlyThread | src/ImageDL/Classes/ImageDownloading/4Chan/FourChanImageDownloader.cs:84-88 | an old post ends only its own thread; the later threads are still processed |
| FourChan.Pages | src/ImageDL/Classes/ImageDownloading/4Chan/FourChanImageDownloader.cs:60-69 | board pages are fetched in rising order up to 9, all of them unless a thread answered false |
| FourChan.GatherPostsAsync | src/ImageDL/Classes/ImageDownloading/4Chan/FourChanImageDownloader.cs:53-70 | a positive thread id processes that thread alone with no page fetched; otherwise pages 1 to 9 in order, all unless stopped |
| FourChanPosts.Make | src/ImageDL.Core/Classes/ImageDownloading/4chan/Models/FourChanPost.cs:58-62 | the thread id is kept as a decimal text that parses back to it |
| FourChanPosts.Width | src/ImageDL.Core/Classes/ImageDownloading/4chan/Models/FourChanPost.cs:51 | −1 when the width is missing, otherwise the width |
| FourChanPosts.Height | src/ImageDL.Core/Classes/ImageDownloading/4chan/Models/FourChanPost.cs:23 | −1 when the height is missing, otherwise the height |
| FourChanPosts.Score | src/ImageDL.Core/Classes/ImageDownloading/4chan/Models/FourChanPost.cs:41 | the least 32-bit value, at or below every 32-bit minimum score |
| FourChanPosts.Id | src/ImageDL.Core/Classes/ImageDownloading/4chan/Models/FourChanPost.cs:27 | decimal text that parses back to the post number, without '?' or '#' |
| FourChanPosts.PostUrlParts | src/ImageDL.Core/Classes/ImageDownloading/4chan/Models/FourChanPost.cs:37 | stripping the post url gives the thread url, and the text after "#p" parses to the post number |
| FourChanPosts.Images | src/ImageDL.Core/Classes/ImageDownloading/4chan/Models/FourChanPost.cs:65-70 | a url ending in "/" + file name + extension exactly when the post has an image; otherwise not found at the post url |
| FourChanPosts.ImageUrlParts | src/ImageDL.Core/Classes/ImageDownloading/4chan/Models/FourChanPost.cs:65-70 | the image url starts with "http://i.4cdn.org/"; for a board without '/', the segment after the host is the board and the rest is the file name and extension |
| FourChanPosts.CreatedAt | src/ImageDL.Core/Classes/ImageDownloading/4chan/Models/FourChanPost.cs:19 | the epoch plus a whole number of seconds equal to the timestamp |
| FourChanPosts.CreatedAtOrder | src/ImageDL.Core/Classes/ImageDownloading/4chan/Models/FourChanPost.cs:19 | creation times compare as the timestamps do |
| DanbooruPosts.Tags | src/ImageDL.Core/Classes/ImageDownloading/Danbooru/DanbooruPost.cs:130-152 | each kind's tag string split at spaces; an unknown kind raises an argument error |
| DanbooruPosts.TagsRoundTrip | src/ImageDL.Core/Classes/ImageDownloading/Danbooru/DanbooruPost.cs:134-147 | tags joined with single spaces are read back unchanged |
| DanbooruPosts.ChildrenIds | src/ImageDL.Core/Classes/ImageDownloading/Danbooru/DanbooruPost.cs:156-157 | empty for a null or blank string; otherwise one integer per space-separated field, each the field's value, or the error of the first field that does not parse |
| DanbooruPosts.ParseAllFirstFailure | src/ImageDL.Core/Classes/ImageDownloading/Danbooru/DanbooruPost.cs:156-157 | parsing the fields fails exactly when some field is not a 32-bit integer, and then with the error of the first such field |
| DanbooruPosts.ChildrenIdsRoundTrip | src/ImageDL.Core/Classes/ImageDownloading/Danbooru/DanbooruPost.cs:156-157 | ids written with single spaces are read back unchanged |
| DanbooruPosts.Favorites | src/ImageDL.Core/Classes/ImageDownloading/Danbooru/DanbooruPost.cs:159-160 | empty for a null or blank string; otherwise one integer per field, each the value of the field with "fav:" removed, or the error of the first such field that does not parse |
| DanbooruPosts.FavoritesRoundTrip | src/ImageDL.Core/Classes/ImageDownloading/Danbooru/DanbooruPost.cs:159-160 | "fav:" + id fields with single spaces are read back unchanged |
| DanbooruPosts.Pools | src/ImageDL.Core/Classes/ImageDownloading/Danbooru/DanbooruPost.cs:162-163 | empty for a blank string; otherwise spaces + 1 names with "pool:" removed |
| DanbooruPosts.PoolsRoundTrip | src/ImageDL.Core/Classes/ImageDownloading/Danbooru/DanbooruPost.cs:162-163 | "pool:" + name fields are read back unchanged |
| DanbooruPosts.ParseAllRendered | src/ImageDL.Core/Classes/ImageDownloading/Danbooru/DanbooruPost.cs:157 | parsing rendered 32-bit integers gives them back |
| JsonUtils.WrittenName | src/ImageDL/Utilities/JsonUtils.cs:76-86 | a name starting with '@' or '#' loses exactly that character; any other name is unchanged |
| JsonUtils.WrittenNameStripsOne | src/ImageDL/Utilities/JsonUtils.cs:76-86 | exactly one marker is removed, even before another marker |
| JsonUtils.Add | src/ImageDL/Utilities/JsonUtils.cs:55 | succeeds exactly for a new name, appending the property; a repeated name raises an argument error |
| JsonUtils.AttributesAdded | src/ImageDL/Utilities/JsonUtils.cs:53-56 | adding attributes succeeds exactly when the names stay distinct, appending one decoded property per attribute |
| JsonUtils.NonEmpty | src/ImageDL/Utilities/JsonUtils.cs:62 | only objects with properties are kept, and none exactly when none has any |
| JsonUtils.AssembleOutcome | src/ImageDL/Utilities/JsonUtils.cs:50-68 | the object is the attribute properties, then the text property, then the children property |
| JsonUtils.ConvertSucceeds | src/ImageDL/Utilities/JsonUtils.cs:50-68 | the conversion succeeds exactly when every child's does and no name repeats |
| JsonUtils.ConvertShape | src/ImageDL/Utilities/JsonUtils.cs:50-68 | attributes first; "inner_text" exactly when the trimmed text is not blank; "children" exactly when some child has properties |
| JsonUtils.ConvertEmpty | src/ImageDL/Utilities/JsonUtils.cs:50-68 | no attributes, blank text and empty children give an empty object |
| Reddit.WantedPostsMembers | src/ImageDL/ImageDownloaders/RedditDownloader/RedditImageDownloader.cs:25 | a post is kept exactly when it is in the listing, not stickied, not a self post and at or above the threshold |
| Reddit.GatherPostsAsync | src/ImageDL/ImageDownloaders/RedditDownloader/RedditImageDownloader.cs:23-33 | a web exception gives no posts and any other escapes; otherwise at most the amount, all wanted, all from the listing |
| Reddit.GatheredPrefix | src/ImageDL/ImageDownloaders/RedditDownloader/RedditImageDownloader.cs:25-26 | the result is a prefix of the wanted posts: all of them when the amount covers them, otherwise exactly the amount |
| Reddit.WantedPostGathered | src/ImageDL/ImageDownloaders/RedditDownloader/RedditImageDownloader.cs:25-26 | a wanted post is gathered once the amount covers the wanted posts up to it |
| Reddit.StoreAnimatedContentLink | src/ImageDL/ImageDownloaders/RedditDownloader/RedditImageDownloader.cs:38-39 | the link carries the post's score |
| Reddit.GatheredLinksMeetThreshold | src/ImageDL/ImageDownloaders/RedditDownloader/RedditImageDownloader.cs:25-39 | a gathered post's animated link scores at or above the threshold |
| NumberBox.Clamp | src/ImageDL.UI/Classes/Controls/ImageDLNumberBox.xaml.cs:118-126 | within the bounds when they are ordered; an in-range value is unchanged; otherwise a bound |
| NumberBox.ClampIsMinMax | src/ImageDL.UI/Classes/Controls/ImageDLNumberBox.xaml.cs:118-126 | the clamp equals min(max(value, lo), hi) |
| NumberBox.UpdateStoredValue | src/ImageDL.UI/Classes/Controls/ImageDLNumberBox.xaml.cs:116-135 | the bounds stay; an in-range value is stored as is, one above the maximum stores the maximum and one below the minimum the minimum; an unchanged value changes nothing; a changed one rewrites the text as its rendering |
| NumberBox.UpdateIdempotent | src/ImageDL.UI/Classes/Controls/ImageDLNumberBox.xaml.cs:116-135 | storing the same value twice equals storing it once |
| NumberBox.Up | src/ImageDL.UI/Classes/Controls/ImageDLNumberBox.xaml.cs:102-108 | at or above the maximum nothing changes; otherwise the value rises by one and the text shows it |
| NumberBox.Down | src/ImageDL.UI/Classes/Controls/ImageDLNumberBox.xaml.cs:109-115 | at or below the minimum nothing changes; otherwise the value falls by one and the text shows it |
| NumberBox.UpThenDown | src/ImageDL.UI/Classes/Controls/ImageDLNumberBox.xaml.cs:102-115 | within the range, down undoes up |
| NumberBox.DownThenUp | src/ImageDL.UI/Classes/Controls/ImageDLNumberBox.xaml.cs:102-115 | within the range, up undoes down |
| NumberBox.RefusedIffFilterChanges | src/ImageDL.UI/Classes/Controls/ImageDLNumberBox.xaml.cs:65-68 | typed text is refused exactly when it is not blank and filtering would change it |
| NumberBox.TextChanged | src/ImageDL.UI/Classes/Controls/ImageDLNumberBox.xaml.cs:56-64 | blank text leaves the value; parsable text stores its value clamped to the bounds; unparsable text stores the clamped default |
| NumberBox.TextChangedSettles | src/ImageDL.UI/Classes/Controls/ImageDLNumberBox.xaml.cs:56-64 | the text rewritten after a change parses back, so the second text-changed event changes nothing |
| NumberBox.NumberChars | src/ImageDL.UI/Classes/Controls/ImageDLNumberBox.xaml.cs:16 | only digits and '-' remain, never more characters |
| NumberBox.FilterKeepsAll | src/ImageDL.UI/Classes/Controls/ImageDLNumberBox.xaml.cs:16 | text of digits and '-' passes unchanged |
| NumberBox.FilterDrops | src/ImageDL.UI/Classes/Controls/ImageDLNumberBox.xaml.cs:16 | a character outside the pattern makes the text shorter |
| NumberBox.FilterIdempotent | src/ImageDL.UI/Classes/Controls/ImageDLNumberBox.xaml.cs:16 | filtering twice equals filtering once |
| NumberBox.Paste | src/ImageDL.UI/Classes/Controls/ImageDLNumberBox.xaml.cs:70-101 | without clipboard text nothing is done; otherwise text before the caret + filtered input + text after, cut to the maximum length, with the caret at the end |
| NumberBox.PasteAtEnd | src/ImageDL.UI/Classes/Controls/ImageDLNumberBox.xaml.cs:81-98 | pasting at the end of a box with room appends |
| NumberBox.MaxLength | src/ImageDL.UI/Classes/Controls/ImageDLNumberBox.xaml.cs:137-141 | the longer of the two bounds' renderings |
| NumberBox.ValuesFit | src/ImageDL.UI/Classes/Controls/ImageDLNumberBox.xaml.cs:137-141 | every value in range fits in the maximum length |

## Left out

- HTTP, cookies, handler setup and real-time delays (`SendAsync`, `Task.Delay`, `DateTime.UtcNow`). `GetText` reports the delays it would sleep, and the server is a function from request number to response.
- Reflection-based gatherer discovery: the registry is a list of entries tagged with their type name.
- JSON, HTML and XML decoding (Newtonsoft, HtmlAgilityPack, the XML serializer). Pages are given as already decoded records.
- `UrlEncode`, `HtmlDecode`, `IsImagePath`, `HasValidSize`/`FitsSizeRequirements` and `Add` are parameters, because their bodies are not part of this model. So are the post lookups by id.
- Resolving.ResolvePost: the lookup by id and the post's `GetImagesAsync` are taken not to raise. In the source an exception from either escapes `GetInstagramImagesAsync`, `GetPinterestImagesAsync` or `GetAnimePicturesImagesAsync` unchanged. The same holds for the lookup in `Resolving.GatherFromMarker` (Moebooru, Vsco).
- Client.RemoveQuery: works on the url text as given. In .NET the url first goes through `Uri.ToString()`, which canonicalises it (lower-case scheme and host, default port dropped, some escapes undone) before the split at '?' or '#'. `Uri` parsing is not part of this model.
- `CaseInsIndexOf`/`CaseInsContains` fold only ASCII letters, because the helpers' culture rules are not part of this model.
- `string.IsNullOrWhiteSpace` is modelled with the white-space characters below U+0100.
- .NET `Regex` `\d` matches every Unicode decimal digit. The model keeps ASCII digits only.
- `StartsWith` in `WritePropertyName` is culture-sensitive in .NET. The model compares the first character.
- The MD5 `X-Instagram-GIS` header (`GenerateApiReq`): a cryptographic library call.
- The Pinterest timestamp parameter and DeviantArt's time-based query parts: they depend on the clock.
- `FourChanPosts.CreatedAt`: the `ToUniversalTime` shift is not modelled, so the result is in UTC ticks since year 1.
- `ImageComparers.Equals`: `float` rounding is not modelled; ratios and the percentage are exact reals.
- Thumbnail hashing, `TryStore`, `DeleteDuplicates` and saved-file caching are not part of this model.
- WPF dependency-property and event plumbing of the number box. `NumberBox.Paste` takes the maximum length as a parameter, so the text box's default of 0 before `UpdateMaxLength` runs is not modelled.
- Console output and progress logging (`WritePostToConsole`, the rate-limit message).
- Concurrency: the semaphore in `StartAsync` and thread-based caching.
- `Reddit.GatherPostsAsync`: the hot listing is finite in the model. Only the subreddit fetch can raise, which matches the lazy listing, whose own exceptions surface outside the method.
- `Instagram.ObtainKey`: the `ContainsKey` check before retrying is always true once `GetApiKeyAsync` has run, so the "no cached key" branch of the query-hash retry is not reachable in the model.
- Instagram.GatherPostsAsync: runs on the corrected profile and script cuts, which raise when a marker is missing. The cut as written, which reads from a fixed offset instead, appears only in `Instagram.AsWrittenReadsMarkerlessProfile` and `Instagram.AsWrittenReadsMarkerlessScript` (see Findings).
- Pinterest.GatherPostsAsync: runs on the corrected board-id cut. The cut as written appears only in `Pinterest.AsWrittenReadsMarkerlessBoard` (see Findings).
- DeviantArt.GatherPostsAsync: runs the corrected scraping and API pagination, which stop after an empty first page. The refetch of offset 0 as written appears only in `DeviantArt.AsWrittenScrapingRefetches` and `DeviantArt.AsWrittenApiRefetches` (see Findings).
- Client.GetText: the delay after the i-th rate-limited response (counting from 0) is wait·2^i as an unbounded integer. In .NET `(int)Math.Pow(2, i)` is int.MinValue for i ≥ 31, so the delay is negative and nothing waits. `Task.Delay` throws for a delay above int.MaxValue milliseconds, which the 2 s default reaches at i ≥ 21. The `long` product of the ticks can also overflow for a huge wait. None of these limits is modelled, because they lie far beyond the default of 3 tries.
- `IndexOf(string)` and `Contains` on markers are culture-sensitive in .NET and ordinal in the model. This affects the profile, script and board-id cuts only when a page holds characters that the culture comparison ignores, such as a soft hyphen.
- Instagram.InstagramRetry: the model takes the blank `InstagramMediaTimeline` to have a null `PageInfo`, and the blank `DeviantArtApiResults` to have null `Results`, because neither class has an initialiser for them. So a retry before any page raises a null reference (`Instagram.InstagramFirstRetryRaises`, `DeviantArt.ApiFirstRetryRaises`). The two JSON classes are not part of this model.
- Safebooru, Konachan, Gelbooru, Tumblr, Twitter, Weibo, Eshuushuu, Bcy and the delegating gatherers are not part of this model. They hold only library-based query building, decoding or a host name.

## Findings

| source | as written | input that shows it | evidently intended | confidence | as-written member | corrected member |
|---|---|---|---|---|---|---|
| src/ImageDL/Classes/ImageDownloading/DeviantArt/DeviantArtImageDownloader.cs:173 | `i == 0 \|\| parsed.Count >= 20`, where `i` is the offset, not an iteration count | a search whose first scraped page is empty: the offset stays 0, so `i == 0` keeps holding and offset 0 is fetched again after every response | stop after a page of fewer than 20 posts, the first page included | not executed | DeviantArt.AsWrittenScrapingRefetches | DeviantArt.ScrapingStopsAfterEmptyPage |
| src/ImageDL/Classes/ImageDownloading/DeviantArt/DeviantArtImageDownloader.cs:214 | `i == 0 \|\| parsed.HasMore`, with the same offset `i` | an API search with no results reporting no more pages: offset 0 is fetched again after every response | stop once a result reports no more pages | not executed | DeviantArt.AsWrittenApiRefetches | DeviantArt.ApiStopsAfterLastPage |
| src/ImageDL/Classes/ImageDownloading/Instagram/InstagramImageDownloader.cs:221-227 | `Substring(IndexOf(search) + search.Length)`, where a missing marker gives −1 | a successful profile page "0123456789abc42\"" without either marker reads id 42 and `rhx_gis` "abc42" | a missing marker is an error | not executed | Instagram.AsWrittenReadsMarkerlessProfile | Instagram.UserIdAndRhx |
| src/ImageDL/Classes/ImageDownloading/Instagram/InstagramImageDownloader.cs:174-176 | the same cut for the query hash | a script of 56 '0' characters followed by "7\"" reads the hash "7" | a missing marker is an error | not executed | Instagram.AsWrittenReadsMarkerlessScript | Instagram.ApiKey |
| src/ImageDL/Classes/ImageDownloading/Pinterest/PinterestImageDownloader.cs:153-155 | the same cut for the board id | a successful board page "0123456789ab7\"" reads the board id "7" | a missing marker is an error | not executed | Pinterest.AsWrittenReadsMarkerlessBoard | Pinterest.BoardId |
