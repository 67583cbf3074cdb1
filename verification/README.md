# Flow Theory AI site logic in Dafny

This project models the pieces of the Flow Theory AI marketing site that hold
logic rather than layout, and proves what they promise:

- **the blog URL codec** (`src/lib/slug.ts`): `generateSlug`, `createBlogPath`
  (`/blog/<slug>-<shortId>`) and the site's `extractIdFromSlug`;
- **the reading-time estimator** (`src/lib/readingTime.ts`): text extraction
  from a TipTap document tree, tag stripping for non-JSON bodies, word count,
  whole minutes at 200 words per minute, and the `"N min read"` label;
- **the Open Graph redirect function** (`supabase/functions/og-redirect`): its
  own id extractor for the `<uuid>-<slug>` layout, `escapeHtml`, the meta tags
  of the generated page, and the handler's 400 / default page / article page /
  500 outcomes;
- **the sitemap function** (`supabase/functions/sitemap`): two static pages,
  then one `<id>-<slug>` entry per post, with the minimal sitemap as fallback;
- **the typewriter effect** (`src/components/TypewriterText.tsx`) as a pure
  state-transition function with its invariant;
- **the related-posts strip** (`src/components/RelatedPosts.tsx`): filtering,
  slicing, avatar image and initials, and the cards it renders;
- **the two blog webhooks** (`supabase/functions/blog-webhook`,
  `supabase/functions/delete-blog-webhook`): method, Bearer token, payload
  checks, the author allow-list, and the outcome of the insert or delete;
- **the `SEO` component** (`src/components/SEO.tsx`): the fallback chains and
  which head tags it writes;
- **the JSON-LD blocks** (`src/components/StructuredData.tsx`): breadcrumb
  numbering and the article schema's defaults.

One module per source file, plus shared helpers: `Wrappers` (`Option`),
`Js` (JavaScript truthiness, `||`, template interpolation), `Text` (the
JavaScript white-space class, `trim`, ASCII case mapping, `split`/`join`),
`Uuid` (the 8-4-4-4-12 hex pattern) and `Html` (a page head as an ordered list
of tags). The network, the database, `JSON.parse` and `Date` are parameters of
the functions that use them: `fetch` becomes a function from the requested id to
what came back, the database insert or delete becomes a function from the row
or title to its result, `JSON.parse` becomes `string -> Option<Json>` (None where
it throws), and `new Date(d).toISOString()` becomes `string -> Option<string>`.

Two link layouts are in use, and the model keeps them apart. The site builds
`/blog/<slug>-<shortId>`, where the short id is the UUID's first segment, and its
extractor returns a bare UUID unchanged and anything else as the text after the
last hyphen (`Slug.ShortIdRoundTrip`). The sitemap emits `<uuid>-<slug>`, which
the Open Graph function's prefix extractor reads back in full
(`Sitemap.SitemapUrlResolvesInOgRedirect`) but the site's extractor does not
(`Sitemap.SitemapUrlMisreadBySite`).

## Model

| member | source | states |
|---|---|---|
| `Slug.GenerateSlug` | src/lib/slug.ts:4-12 | every slug is at most 60 characters of `[a-z0-9_-]`, with no white space and no `--`; a string that already has that shape is its own slug; what it keeps of the title is stated by `Slug.SlugKeepsWordChars` |
| `Slug.SlugKeepsWordChars` | src/lib/slug.ts:4-12 | the slug without its hyphens is a prefix of the `\w` characters of the lower-cased title, in order, and all of them unless the slug was cut at 60 characters |
| `Slug.TrimKeepsWordChars` | src/lib/slug.ts:7 | trimming removes no word character |
| `Slug.StripKeepsWordChars` | src/lib/slug.ts:8 | stripping special characters removes no word character |
| `Slug.CollapseKeepsWordChars` | src/lib/slug.ts:9-10 | replacing runs of white space or of hyphens by `-` removes no word character |
| `Slug.SlugFixedPoint` | src/lib/slug.ts:4-12 | a string is left unchanged by `generateSlug` exactly when it has the slug shape |
| `Slug.GenerateSlugIdempotent` | src/lib/slug.ts:4-12 | slugifying a slug changes nothing |
| `Slug.SlugMayEndWithHyphen` | src/lib/slug.ts:6-10 | trimming happens before stripping, so `"Hi !"` becomes `"hi-"`, a slug ending in a hyphen |
| `Slug.StripSpecial` | src/lib/slug.ts:8 | only word characters, white space and `-` remain; a single character survives exactly when it is one of those, and otherwise nothing is left; a string made of those alone is unchanged |
| `Slug.StripSpecialIsFilter` | src/lib/slug.ts:8 | stripping leaves exactly the word characters, white space and hyphens of the input, each of them, in their original order |
| `Slug.StripSpecialAppend` | src/lib/slug.ts:8 | stripping a concatenation strips each part, so with the one-character cases the result is exactly the kept characters, in order |
| `Slug.CollapsedRunsAreSingle` | src/lib/slug.ts:9-10 | after replacing every run of a class by one `-`, each class character left is a lone `-` not followed by another |
| `Slug.CollapseSingleRuns` | src/lib/slug.ts:9-10 | collapsing leaves a string whose runs are already single hyphens unchanged |
| `Slug.HyphenRunsAreSingle` | src/lib/slug.ts:10 | for hyphens, "every run is a single character" is the same as "no `--`" |
| `Slug.Truncate` | src/lib/slug.ts:11 | the result is the first `min(60, length)` characters of the input: exactly 60 for a longer input, the whole input otherwise |
| `Slug.CreateBlogPath` | src/lib/slug.ts:18-22 | the path is `/blog/` followed by the title's slug, a `-` and the id's first `-`-segment; the site's extractor recovers a UUID id's first eight characters from it, and the short id itself whenever that is not twelve characters long |
| `Slug.ExtractIdFromSlug` | src/lib/slug.ts:28-38 | a bare UUID comes back unchanged; anything else yields the hyphen-free suffix after its last `-` (all of it when there is none) |
| `Slug.ExtractTail` | src/lib/slug.ts:36-37 | from `<text>-<short>` with a hyphen-free tail not twelve characters long, the tail comes back |
| `Slug.ShortIdRoundTrip` | src/lib/slug.ts:18-38 | for a UUID and any title, extracting from the path token gives back the UUID's short id |
| `Slug.BareUuidKept` | src/lib/slug.ts:30-33 | a bare UUID, the oldest link format, is returned unchanged |
| `Slug.SitemapLayoutNotRecovered` | src/lib/slug.ts:28-38 | for a `<uuid>-<slug>` token with a non-empty slug the site's extractor never returns the UUID |
| `Uuid.ShortIdOfUuid` | src/lib/slug.ts:20 | the first `-`-segment of a UUID is its first eight characters |
| `Uuid.HyphenFreeTailOfUuid` | src/lib/slug.ts:30 | the hyphen-free tail of a UUID is its twelve-digit last group, so a tail of another length rules out a UUID |
| `Text.ToLower` | src/lib/slug.ts:6 | lower-casing keeps the length, changes exactly the upper-case ASCII letters and maps each to the letter 32 code points above it, leaving no upper-case ASCII letter |
| `Text.Trim` | src/lib/slug.ts:7 | the result is the input without its leading and trailing white space, and neither ends with white space |
| `Text.Split` | src/lib/slug.ts:36 | splitting gives at least one part, one exactly when the separator is absent, and no part contains the separator |
| `Text.SplitJoin` | src/lib/slug.ts:36 | joining the parts of a split with the separator gives the string back |
| `Text.FirstSegment` | src/lib/slug.ts:20 | `split(d)[0]` is the longest prefix without `d`, ending at the first `d` |
| `Text.LastSegment` | src/lib/slug.ts:37 | the last part of `split(d)` is the longest suffix without `d`, starting after the last `d` |
| `Text.LastSegmentOfJoin` | src/lib/slug.ts:36-37 | the last segment of `a + d + b` is `b` when `b` has no `d` |
| `ReadingTime.NonObjectsHaveNoText` | src/lib/readingTime.ts:13 | null, booleans, numbers, strings and arrays extract to the empty text |
| `ReadingTime.ExtractedWords` | src/lib/readingTime.ts:12-26 | the number of words in the extracted text is the total number of words in the document's text leaves, however deeply the tree is nested |
| `ReadingTime.JoinWords` | src/lib/readingTime.ts:21-23 | joining the children's texts with single spaces adds no word and merges none |
| `ReadingTime.StripTagsIsTagFree` | src/lib/readingTime.ts:42 | after replacing every `<...>` by a space no complete tag is left |
| `ReadingTime.StripTagsOfTagFree` | src/lib/readingTime.ts:42 | text without a complete tag is left unchanged |
| `ReadingTime.SplitCountsWords` | src/lib/readingTime.ts:48 | splitting on white-space runs and dropping empty pieces leaves one piece per maximal run of non-white-space characters |
| `ReadingTime.TrimKeepsWords` | src/lib/readingTime.ts:48 | trimming does not change the number of words |
| `ReadingTime.WordCountIsWords` | src/lib/readingTime.ts:48 | the trim-split-filter count equals the number of maximal non-white-space runs |
| `ReadingTime.MinutesFor` | src/lib/readingTime.ts:7-51 | at least one minute, and the smallest whole number of minutes that covers the words at 200 per minute |
| `ReadingTime.MinutesMonotone` | src/lib/readingTime.ts:49-51 | more words never give fewer minutes |
| `ReadingTime.MinutesExamples` | src/lib/readingTime.ts:49-51 | 0 and 200 words take one minute, 201 and 400 take two |
| `ReadingTime.CalculateReadingTime` | src/lib/readingTime.ts:33-52 | at least one minute, and the minutes for the words of the extracted or tag-stripped text |
| `ReadingTime.ReadingTimeOfDocument` | src/lib/readingTime.ts:44-51 | a parsed document's reading time depends only on the words of its text leaves |
| `ReadingTime.ReadingTimeOfHtml` | src/lib/readingTime.ts:36-43 | a body that is not JSON is read with its tags blanked out, and the text counted holds no tag |
| `ReadingTime.NatToStringRoundTrip` | src/lib/readingTime.ts:60 | the decimal digits written for a number read back as that number |
| `ReadingTime.FormatReadingTime` | src/lib/readingTime.ts:59-61 | the label is the number followed by `" min read"`, with no plural form |
| `ReadingTime.FormatReadingTimeRoundTrip` | src/lib/readingTime.ts:59-61 | the number in the label is made of digits and reads back as the minutes |
| `OgRedirect.ExtractIdFromSlug` | supabase/functions/og-redirect/index.ts:13-30 | no id for an empty slug; a leading UUID gives its 36 characters; otherwise the first `-`-segment when it has at least eight characters, else no id |
| `OgRedirect.SitemapLayoutRoundTrip` | supabase/functions/og-redirect/index.ts:16-21 | from `<uuid>-<slug>` the full UUID comes back, whatever the slug |
| `OgRedirect.BareUuidRoundTrip` | supabase/functions/og-redirect/index.ts:16-21 | a bare UUID is its own id |
| `OgRedirect.PostLinkLayoutRejected` | supabase/functions/og-redirect/index.ts:13-30 | every token `<word>-<rest>` whose hyphen-free first word has fewer than eight characters, such as a site link `<slug>-<shortId>` with a short first word, gives no id |
| `OgRedirect.PostLinkFirstWordTaken` | supabase/functions/og-redirect/index.ts:13-30 | a token `<word>-<rest>` whose hyphen-free first word is longer than eight characters yields that word as the id, so `automation-tips-550e8400` asks for the post `automation` |
| `OgRedirect.EscapeHtml` | supabase/functions/og-redirect/index.ts:32-39 | the five chained replacements escape every character on its own, and leave no `<`, `>`, `"` or `'` and no `&` outside an entity |
| `OgRedirect.EscapeHtmlPerChar` | supabase/functions/og-redirect/index.ts:33-38 | because `&` is replaced first, the replacement chain equals the per-character entity map |
| `OgRedirect.ReplaceAllAppend` | supabase/functions/og-redirect/index.ts:34-38 | a global single-character replacement distributes over concatenation |
| `OgRedirect.EscapeHtmlIdentityIff` | supabase/functions/og-redirect/index.ts:32-39 | text is left unchanged exactly when it has none of the five characters |
| `OgRedirect.EscapeEachLength` | supabase/functions/og-redirect/index.ts:32-39 | escaping never shortens, and lengthens whenever a special character occurs |
| `OgRedirect.EscapeHtmlRoundTrip` | supabase/functions/og-redirect/index.ts:32-39 | decoding the five entities gives the original text back: nothing is escaped twice |
| `OgRedirect.ArticleTags` | supabase/functions/og-redirect/index.ts:133-142 | article tags appear only on article pages: the publication time when given, the escaped author when given, the section always |
| `OgRedirect.ArticleKeysFromArticleMeta` | supabase/functions/og-redirect/index.ts:133-165 | every article tag of the page comes from the article block |
| `OgRedirect.OtherKeysOutsideArticleMeta` | supabase/functions/og-redirect/index.ts:151-175 | every other tag of the page comes from the fixed blocks around the article block |
| `OgRedirect.PrimaryTagAlone` | supabase/functions/og-redirect/index.ts:151-164 | each tag of the primary and Open Graph block occurs exactly once on the page |
| `OgRedirect.TwitterTagAlone` | supabase/functions/og-redirect/index.ts:168-175 | each Twitter tag and the refresh tag occur exactly once on the page |
| `OgRedirect.TitleTags` | supabase/functions/og-redirect/index.ts:129-170 | the escaped title is the document title (followed by the site name), `og:title` and `twitter:title` |
| `OgRedirect.UrlAndDescriptionTags` | supabase/functions/og-redirect/index.ts:153-163 | the description is escaped; URL, type and image are written as given to canonical, `og:url`, `og:type` and `og:image` |
| `OgRedirect.AuthorName` | supabase/functions/og-redirect/index.ts:91 | the author's non-empty display name, else the site's name; never empty |
| `OgRedirect.Handle` | supabase/functions/og-redirect/index.ts:41-113 | OPTIONS is the preflight; a missing or empty slug and an unreadable id are 400s; for any other method and a readable id the answer is a page exactly when fetching the post does not throw: the default page when the post is not found and the post's page when it is |
| `OgRedirect.WebsitePage` | supabase/functions/og-redirect/index.ts:126-175 | a "website" page carries no article tags |
| `OgRedirect.DefaultPageForMissingPost` | supabase/functions/og-redirect/index.ts:70-83 | for every method but OPTIONS, a non-ok answer for the post gives the default page |
| `OgRedirect.DefaultPageTags` | supabase/functions/og-redirect/index.ts:72-78 | the default page is the blog index as a "website" page without article tags |
| `OgRedirect.PostPageForFoundPost` | supabase/functions/og-redirect/index.ts:85-106 | for every method but OPTIONS, a fetched post gives the page built from that post and the requested slug |
| `OgRedirect.ArticlePageForPost` | supabase/functions/og-redirect/index.ts:87-102 | a post's page is an article page whose title falls back to the blog title, whose URL repeats the slug, with an author tag always and a publication tag when the post has a date |
| `OgRedirect.PostPageDescriptionAndImage` | supabase/functions/og-redirect/index.ts:88-89 | the description is the excerpt, else a sentence naming the title; the image is the cover, else the default image |
| `OgRedirect.UnreachablePostIsServerError` | supabase/functions/og-redirect/index.ts:107-113 | a fetch or parse that throws is answered with a 500 |
| `OgRedirect.SitemapUrlFetchesItsPost` | supabase/functions/og-redirect/index.ts:58-106 | for every method but OPTIONS, a sitemap token `<uuid>-<slug>` makes the handler fetch and describe exactly that post |
| `Wrappers.MapAll` | supabase/functions/sitemap/index.ts:69-81 | mapping a fallible function over a list succeeds exactly when every element does, and then keeps length and order |
| `Sitemap.PostEntry` | supabase/functions/sitemap/index.ts:70-80 | a post's entry exists exactly when its title is a string and its date converts; it is at `/blog/<id>-<slug>`, dated by the ISO date's day, monthly, priority 0.8 |
| `Sitemap.Generate` | supabase/functions/sitemap/index.ts:38-105 | the answer is cacheable exactly when the post list was read and every post gives an entry; then it has the two static pages first and one entry per post, else it is the minimal sitemap (entry by entry in `Sitemap.SitemapLayout`) |
| `Sitemap.SitemapLayout` | supabase/functions/sitemap/index.ts:49-81 | a successful sitemap lists `/` and `/blog` first, then one entry per post in the response's order, each at `/blog/<id>-<slug>`, monthly, priority 0.8 |
| `Sitemap.NoPostsStaticOnly` | supabase/functions/sitemap/index.ts:42-46 | a non-ok response or a body without posts leaves only the two static pages |
| `Sitemap.BadDateFallsBack` | supabase/functions/sitemap/index.ts:72-105 | one post whose date does not convert turns the whole answer into the minimal sitemap |
| `Sitemap.FallbackMatchesStatic` | supabase/functions/sitemap/index.ts:95-105 | the minimal sitemap has exactly the two static URLs with their priorities |
| `Sitemap.SitemapUrlResolvesInOgRedirect` | supabase/functions/sitemap/index.ts:75 | the Open Graph function reads the full post id back from a sitemap URL |
| `Sitemap.SitemapUrlMisreadBySite` | supabase/functions/sitemap/index.ts:75 | the site's own extractor does not read the post id back from a sitemap URL with a non-empty slug |
| `Typewriter.Step` | src/components/TypewriterText.tsx:23-56 | paused turns into deleting; deleting an empty text moves to the next phrase cyclically; deleting drops the last character; the full phrase pauses; typing shows one more character of the phrase |
| `Typewriter.DropLast` | src/components/TypewriterText.tsx:42 | `slice(0, -1)` removes exactly the last character |
| `Typewriter.Slice` | src/components/TypewriterText.tsx:53 | `slice(0, n)` is a prefix of the phrase of length `n`, or all of it |
| `Typewriter.Delay` | src/components/TypewriterText.tsx:26-55 | a step fires at once exactly when the effect sets state without a timer: the empty text while deleting, the full phrase while typing |
| `Typewriter.InitialValid` | src/components/TypewriterText.tsx:18-21 | the initial state satisfies the invariant |
| `Typewriter.StepKeepsValid` | src/components/TypewriterText.tsx:24-54 | every step keeps the index in range, the text a prefix of its phrase, and pausing only on the full phrase |
| `Typewriter.RunKeepsValid` | src/components/TypewriterText.tsx:23-56 | the invariant holds after any number of steps |
| `Typewriter.HiddenCursorShowsPhrase` | src/components/TypewriterText.tsx:58 | whenever the cursor is hidden the whole current phrase is on screen |
| `Typewriter.TypeUp` | src/components/TypewriterText.tsx:47-54 | typing from any prefix reaches the full phrase one character per step |
| `Typewriter.DeleteDown` | src/components/TypewriterText.tsx:34-45 | deleting from any prefix reaches the empty text one character per step |
| `Typewriter.PauseAndDelete` | src/components/TypewriterText.tsx:26-49 | from the full phrase the component pauses, deletes it and moves to the next phrase in `n + 3` steps |
| `Typewriter.Cycle` | src/components/TypewriterText.tsx:23-56 | from the empty text, a phrase is typed, paused on, deleted and followed by the next phrase (the first after the last) in `2n + 3` steps |
| `RelatedPosts.OtherPosts` | src/components/RelatedPosts.tsx:73-74 | no post with the current id is kept |
| `RelatedPosts.OtherPostsMembers` | src/components/RelatedPosts.tsx:73-74 | a post is kept exactly when it was fetched and is not the current one |
| `RelatedPosts.OtherPostsAppend` | src/components/RelatedPosts.tsx:73-74 | filtering keeps the fetched order |
| `RelatedPosts.Related` | src/components/RelatedPosts.tsx:60-75 | nothing without data; otherwise the leading non-current posts in fetched order, as many as `slice(0, maxPosts)` keeps: at most `maxPosts`, and all but the last `-maxPosts` for a negative `maxPosts` |
| `RelatedPosts.RelatedTakesFirst` | src/components/RelatedPosts.tsx:73-75 | with enough other posts the strip holds exactly the first `maxPosts` of them |
| `RelatedPosts.RelatedWereFetched` | src/components/RelatedPosts.tsx:73-75 | every related post was fetched and is not the current post |
| `RelatedPosts.AuthorImage` | src/components/RelatedPosts.tsx:55-58 | no image without a display name; else the bundled portrait for the three authors, else a non-empty avatar URL, else none |
| `RelatedPosts.AuthorInitials` | src/components/RelatedPosts.tsx:46-53 | `"A"` for a missing or empty name; else the upper-cased opening letters of the name's words |
| `RelatedPosts.HeadsOfSplit` | src/components/RelatedPosts.tsx:48-51 | splitting on spaces and taking each part's first character finds exactly the characters that open a word |
| `RelatedPosts.WordHeadsAppend` | src/components/RelatedPosts.tsx:48-51 | the word openers of a text that ends inside a word and its continuation are those of each part |
| `RelatedPosts.TwoWordInitials` | src/components/RelatedPosts.tsx:46-53 | a first and a last name give their two opening letters, upper-cased |
| `RelatedPosts.CardOf` | src/components/RelatedPosts.tsx:106-159 | a card links to the post's blog path and shows a reading time exactly when the post has content, formatted from that content |
| `RelatedPosts.Render` | src/components/RelatedPosts.tsx:60-106 | placeholders (three) exactly while loading; nothing exactly when no related post is left; else one card per related post, in order, at most three when `maxPosts` is left out |
| `RelatedPosts.CardLinksResolve` | src/components/RelatedPosts.tsx:109 | each card's link gives the post's short id back to the site's extractor |
| `WebhookGate.ReplaceFirst` | supabase/functions/blog-webhook/index.ts:47 | `replace` with a string pattern rewrites only a leading occurrence when the text starts with it |
| `WebhookGate.Authorize` | supabase/functions/blog-webhook/index.ts:39-54 | the header is rejected as missing exactly when absent or not starting with `"Bearer "`; the request is authorised exactly when the header is `"Bearer "` followed by the configured token |
| `WebhookGate.UnsetTokenRejectsAll` | supabase/functions/blog-webhook/index.ts:37-54 | with no configured token no request is authorised |
| `WebhookGate.DoubledPrefixToken` | supabase/functions/blog-webhook/index.ts:47-48 | only the first `"Bearer "` is removed: a token that itself starts with it must be sent with the prefix twice |
| `WebhookGate.Gate` | supabase/functions/blog-webhook/index.ts:23-54 | OPTIONS is the preflight, other non-POST methods 405, a POST passes exactly with the configured token and is otherwise a 401 |
| `BlogWebhook.MissingField` | supabase/functions/blog-webhook/index.ts:61-80 | the first of author_name, title and body that is not a non-empty string is reported, and none exactly when all three are |
| `BlogWebhook.RowOf` | supabase/functions/blog-webhook/index.ts:100-105 | the row holds the payload's three fields, and the image URL when truthy, else `null` |
| `BlogWebhook.CheckPayload` | supabase/functions/blog-webhook/index.ts:57-90 | an unreadable body is a 500, a bad field a 400 naming it, an author outside the allow-list a 400 listing the allowed names; otherwise the payload passes |
| `BlogWebhook.Handle` | supabase/functions/blog-webhook/index.ts:21-135 | the insert runs exactly when the gate and the payload checks pass; its error is a 500 with the database's message, its row a 201 |
| `BlogWebhook.InsertOnlyWhenValid` | supabase/functions/blog-webhook/index.ts:39-107 | nothing is inserted unless the request is an authorised POST with three non-empty string fields and an allowed author |
| `BlogWebhook.CreatedIsInserted` | supabase/functions/blog-webhook/index.ts:98-126 | every success is a 201 reporting the row the insert returned for exactly the payload's fields |
| `BlogWebhook.InvalidAuthorMessage` | supabase/functions/blog-webhook/index.ts:83-90 | the allow-list error names the three authors, comma-separated |
| `BlogWebhook.EmptyImageStoredAsNull` | supabase/functions/blog-webhook/index.ts:104 | an empty image URL is stored as `null` |
| `DeleteBlogWebhook.DeleteResponse` | supabase/functions/delete-blog-webhook/index.ts:71-95 | a delete error is a 500; no deleted row is a 404 echoing the title; otherwise a 200 reporting the first deleted row |
| `DeleteBlogWebhook.Handle` | supabase/functions/delete-blog-webhook/index.ts:12-106 | the delete runs exactly when the gate passes and the title is a non-empty string, and then for that title |
| `DeleteBlogWebhook.DeleteOnlyWhenValid` | supabase/functions/delete-blog-webhook/index.ts:30-69 | nothing is deleted unless the request is an authorised POST with a non-empty string title |
| `DeleteBlogWebhook.NotFoundEchoesTitle` | supabase/functions/delete-blog-webhook/index.ts:79-85 | a 404 happens exactly when a valid request deleted nothing, and it echoes the title |
| `DeleteBlogWebhook.DeletedReportsFirstRow` | supabase/functions/delete-blog-webhook/index.ts:87-95 | every success is a 200 reporting the first row the delete returned |
| `Seo.OgTitleOf` | src/components/SEO.tsx:39 | the social title is never empty |
| `Seo.CanonicalOf` | src/components/SEO.tsx:41 | the canonical URL is never empty |
| `Seo.Resolve` | src/components/SEO.tsx:27-41 | the article fields are kept, unchanged, exactly on an article page given an article |
| `Seo.TitleTags` | src/components/SEO.tsx:38-47 | the document title and the `title` meta tag each appear once and hold the given title followed by `" \| Flow Theory AI"`, or the default title when the title is missing or empty |
| `Seo.OgTitleTags` | src/components/SEO.tsx:39-67 | `og:title` and `twitter:title` hold `ogTitle \|\| title \|\| default`, once each |
| `Seo.DescriptionTag` | src/components/SEO.tsx:29-48 | the description tag holds the description, the default only when the prop is left out |
| `Seo.OgDescriptionTags` | src/components/SEO.tsx:40-68 | `og:description` and `twitter:description` hold `ogDescription \|\| description` |
| `Seo.CanonicalTags` | src/components/SEO.tsx:41-58 | the canonical link and `og:url` hold `canonicalUrl \|\| SITE_URL` |
| `Seo.TwitterCardTags` | src/components/SEO.tsx:65-66 | the card type is always the large-image summary and `twitter:url` is the canonical URL |
| `Seo.TypeTags` | src/components/SEO.tsx:57-62 | `og:type` is the given type, `"website"` when left out; `og:site_name` is the site's name |
| `Seo.ImageTags` | src/components/SEO.tsx:61-69 | `og:image` and `twitter:image` hold the image, the default only when the prop is left out |
| `Seo.RobotsTag` | src/components/SEO.tsx:54 | the robots `noindex, nofollow` tag is present exactly when `noIndex` is true |
| `Seo.ArticleTagsOfHead` | src/components/SEO.tsx:72-89 | article tags appear only on an article page given an article: one per non-empty field and one `article:tag` per keyword, in order |
| `Seo.TagIfPresentContents` | src/components/SEO.tsx:74-85 | an optional article field yields its tag exactly when it is a non-empty string |
| `Seo.KeywordTagsContents` | src/components/SEO.tsx:86-88 | the keyword tags are one `article:tag` per keyword, in order, and nothing else |
| `Seo.FixedKeysOnly` | src/components/SEO.tsx:46-69 | every tag other than robots and the article tags comes from the fixed blocks |
| `Seo.PrimaryTagAlone` | src/components/SEO.tsx:46-51 | each primary tag occurs exactly once in the head |
| `Seo.SocialTagAlone` | src/components/SEO.tsx:57-69 | each Open Graph and Twitter tag occurs exactly once in the head |
| `StructuredData.ListItems` | src/components/StructuredData.tsx:119-124 | one list item per breadcrumb, the i-th at position i + 1 with the crumb's name and URL |
| `StructuredData.CrumbsRoundTrip` | src/components/StructuredData.tsx:119-124 | reading names and URLs back from the list gives the breadcrumbs, in order |
| `StructuredData.PositionsAreOneToN` | src/components/StructuredData.tsx:121 | the positions are exactly 1 to n, each once |
| `StructuredData.ExtendKeepsPrefix` | src/components/StructuredData.tsx:119-124 | adding breadcrumbs at the end leaves the existing items as they were |
| `StructuredData.ArticleSchema` | src/components/StructuredData.tsx:71-105 | headline, description and URL are copied; the image is `imageUrl \|\| LOGO_URL`; `dateModified` is `modifiedTime \|\| publishedTime`; the page entity is the URL; the publisher is the site with its logo |
| `StructuredData.ArticleFallbacks` | src/components/StructuredData.tsx:86-88 | an unmodified article is dated by its publication, and one without an image shows the logo, so the image is never empty |

## Left out

- The network, the database, `Deno.env`, `Deno.serve`/`serve`, CORS headers, logging, Helmet, react-query and react-router: their results are inputs (see above).
- Markup and serialisation: pages, sitemaps and JSON bodies are modelled as lists of tags, entries and records, not as text with exact white space.
- In the Open Graph page, the constant `charset` and `viewport` tags, the `<script>` redirect and the body link (lines 147-148, 176, 179 of `supabase/functions/og-redirect/index.ts`) are not among the modelled tags; the `refresh` tag is.
- The OPTIONS preflight of the sitemap function is not modelled; `Sitemap.Generate` is its GET answer.
- JavaScript strings are UTF-16 code units, modelled as Dafny `char`s; surrogate pairs are not modelled.
- `Slug.GenerateSlug`: its contract and `Slug.SlugKeepsWordChars` fix the slug's shape and which word characters it keeps, in order, but not where between them the hyphens fall.
- `Text.ToLower`: maps the ASCII letters only. JavaScript's `toLowerCase` also maps other letters (and turns `K` (U+212A) into `k` and `İ` into two characters), so `Slug.GenerateSlug` keeps those characters out of the slug where JavaScript might keep an ASCII letter.
- `Text.ToUpper`: likewise ASCII only, for `getAuthorInitials`.
- The white-space class is JavaScript's exact `\s`/`trim` set; `\w` (no `u` flag) is ASCII letters, digits and `_`, as in JavaScript.
- Exception messages: the `details` text of a 500 for an exception is `RuntimeMessage`, whose wording is not modelled.
- JSON values: a webhook payload field is a string, `null`, missing, or some other value with its truthiness; a TipTap node keeps `type`, `text` (when they are strings) and `content` (when it is an array). A non-string `text` that is truthy is returned as it is by the source and read as absent here.
- A related-posts response whose body has no `posts` array makes the component throw while rendering; `data` is modelled as present with a list or absent.
- `maxPosts`, `minutes` and similar numbers are integers; fractional values are not modelled.
- `Typewriter.Step`: requires a non-empty phrase list, as the component reads `phrases[0]` and calls `slice` on it; with no phrases it throws.
- `Typewriter.Delay` uses the default speeds (70, 50 and 1000 ms); other speed props and the timers themselves only decide when a step fires.
- The `authorImages[...]` lookup also finds `Object.prototype` keys such as `"constructor"`; `RelatedPosts.AuthorImage` has only the three authors.
- The card's date (`date-fns` formatting), alt texts and the skeleton's markup.
- `new Date(...).toISOString()` is the `isoDate` parameter of `Sitemap.Generate`.
- The copies of `getAuthorInitials` in `src/pages/Blog.tsx` and `src/pages/BlogPost.tsx` (the latter has no guard for a missing name) are not part of this model, nor are the other page components, the animations, the configuration and the `OrganizationSchema`, `WebsiteSchema` and `BlogListingSchema` blocks, which are constants.
- The sitemap's `generateSlug` (lines 23-31 of `supabase/functions/sitemap/index.ts`) is the same function as in `src/lib/slug.ts`, so the model uses `Slug.GenerateSlug` for both.
