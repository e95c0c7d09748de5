# Pronunciation lookup handler — Dafny model

This project models the request handler of a small word service. Given a word, the
handler looks up the word's "Pronunciation" section in an online dictionary's API and
fetches that section's raw wikitext. From the wikitext it extracts an IPA transcription
and an audio file name, using two fixed regular expressions. When a file name was found,
it resolves the name to a direct URL. Every outcome is reduced to a status code and a
JSON body.

The model has five modules:

- `Wrappers` (`wrappers.dfy`): the `Option` type.
- `Sections` (`sections.dfy`): the section locator. It is the `find` over the outline's
  `{line, index}` records that keeps the index of the first section titled exactly
  `"Pronunciation"`.
- `Markup` and `MarkupProperties` (`markup.dfy`): the two regex searches, written out by
  hand over `seq<char>`.
  - `\{\{IPA\|en\|(\/[^/]+\/)` and `\{\{audio\|en\|([^|}]+)` each get a declarative
    meaning, `IpaMatch` or `AudioMatch`: "the pattern matches at position i and group 1
    captures c".
  - The searches are proved to return the capture at the leftmost matching position and
    `None` when no position matches.
  - The captures are proved unique per position: the closing slash is the first slash,
    and the `[^|}]+` run is maximal.
  - The search does not stop at the first template. A template that does not match,
    such as `{{IPA|en|[x]}}`, is passed over.
- `Handler` and `HandlerProperties` (`handler.dfy`): the handler.
  - Its stages form a phase machine: `Start → Located → Extracted → Finished`. Every
    step strictly lowers the number of remaining stages.
  - The network is an oracle, `Api`. It is three total functions, one per query, each
    returning `Ok(payload) | NotOk(status, text) | Throws`.
  - The handler returns the response together with the list of requests it issued. This
    makes "no request is made", "no later stage runs" and "the file-info title is
    `File:` + name" statable.
- `Examples` and `PotatoScenario` (`examples.dfy`): the template shapes quoted in the
  source's comments, and the end-to-end "potato" lookup.

Two consequences of the code's regex search are easy to miss:

- The IPA comes from the first position where the whole pattern matches, not from the
  first `{{IPA|en|` template. An earlier template that is not followed by a slash pair is
  skipped (`IpaSearchMovesPastBracketedTemplate`, `IpaSearchMovesPastEmptySlashPair`).
- A `{{IPA|en|/xyz/}}` yields `/xyz/` only when the pattern matches at no earlier
  position (`IpaSkipsUnmatchedPrefix`).

## Model

| member | source | states |
|---|---|---|
| Sections.FindTitled | lambda/get-word.ts:65-67 | the result is the position of a section with exactly that title and no earlier section has it; None exactly when no section has it |
| Sections.PronunciationIndex | lambda/get-word.ts:65-67 | absent iff no section is titled "Pronunciation"; otherwise the `index` of the first such section |
| Sections.FirstTitledUnique | lambda/get-word.ts:65-67 | the first section with a given title is a single position |
| Sections.PronunciationIndexIgnoresSuffix | lambda/get-word.ts:65-67 | once a "Pronunciation" section exists, appending more sections (even another "Pronunciation") does not change the located index |
| Markup.ScanTo | lambda/get-word.ts:89-97 | the greedy run of a negated character class: the result is the first position from the start whose character is a stop character (slash, or bar and closing brace), or the end of the text; nothing before it stops |
| Markup.MatchIpaAt | lambda/get-word.ts:89 | the IPA pattern anchored at one position: Some(c) means the IPA template prefix then the slash pair c occurs there; None means no capture matches there |
| Markup.IpaCaptureEndsAtFirstSlash | lambda/get-word.ts:89 | in any IPA match the closing slash is the first slash after the opening one (the non-slash run cannot be shortened or extended) |
| Markup.IpaMatchUnique | lambda/get-word.ts:89 | at most one IPA capture per position |
| Markup.FindIpa | lambda/get-word.ts:89-90 | leftmost search: the returned position matches with the returned capture, no position between the start and it matches, and None means no position from the start matches |
| Markup.ExtractIpa | lambda/get-word.ts:89-90 | the IPA is the capture at a leftmost matching position: preceded by the IPA template prefix, starts and ends with `/`, at least one character between, no `/` inside; None iff the pattern matches nowhere |
| Markup.MatchAudioAt | lambda/get-word.ts:97 | the audio pattern anchored at one position: Some(f) means the audio template prefix then f, non-empty, free of bars and closing braces, followed by a bar, a closing brace or the end; None means no capture matches there |
| Markup.AudioCaptureIsMaximalRun | lambda/get-word.ts:97 | in any audio match the file name ends exactly where the run of characters other than bar and closing brace ends |
| Markup.AudioMatchUnique | lambda/get-word.ts:97 | at most one audio capture per position |
| Markup.FindAudio | lambda/get-word.ts:97-98 | leftmost search for the audio pattern, with None meaning no position from the start matches |
| Markup.ExtractAudio | lambda/get-word.ts:97-98 | the file name is the maximal capture at the leftmost position where the audio template prefix is followed by a file character; None iff there is no such position |
| MarkupProperties.IpaLeftmostIsExtracted | lambda/get-word.ts:89-90 | converse of ExtractIpa's contract: the capture at the leftmost matching position is exactly what is extracted |
| MarkupProperties.AudioLeftmostIsExtracted | lambda/get-word.ts:97-98 | converse of ExtractAudio's contract |
| MarkupProperties.IpaAtFront | lambda/get-word.ts:82-90 | an IPA template at the start whose first argument is the slash pair /b/ yields /b/ whatever follows (alternates, `a=` qualifiers, braces) |
| MarkupProperties.AudioAtFront | lambda/get-word.ts:92-98 | an audio template at the start whose file name f is followed by a bar, a closing brace or the end yields f |
| MarkupProperties.IpaMatchShift | lambda/get-word.ts:89 | whether the IPA pattern matches at a position depends only on the text from there on |
| MarkupProperties.AudioMatchShift | lambda/get-word.ts:97 | whether the audio pattern matches at a position depends only on the text from there on |
| MarkupProperties.IpaSkipsUnmatchedPrefix | lambda/get-word.ts:89-90 | a prefix in which the IPA pattern never starts does not change the extracted IPA |
| MarkupProperties.AudioSkipsUnmatchedPrefix | lambda/get-word.ts:97-98 | a prefix in which the audio pattern never starts does not change the extracted file name |
| MarkupProperties.IpaSkipsTemplateWithoutSlash | lambda/get-word.ts:89-90 | an IPA template whose argument does not begin with `/`, or begins with `//`, is passed over and the search continues after it, when the argument up to the next template holds no opening brace |
| MarkupProperties.NoMatchInBraceFreeText | lambda/get-word.ts:89-97 | neither pattern starts anywhere inside text that holds no opening brace |
| MarkupProperties.NoIpaMatchWithoutOpening | lambda/get-word.ts:89 | the IPA pattern only matches where two opening braces are written and a slash follows the template prefix |
| MarkupProperties.NoAudioMatchWithoutBraces | lambda/get-word.ts:97 | the audio pattern only matches where two opening braces and an a are written |
| MarkupProperties.ExtractedIpaShape | lambda/get-word.ts:89-90 | every extracted IPA is a slash pair with no `/` inside |
| MarkupProperties.ExtractedAudioShape | lambda/get-word.ts:97-98 | every extracted file name is non-empty and has no bar or closing brace |
| Handler.FetchErrorMessage | lambda/get-word.ts:133 | the catch-all message is "Error fetching data for word " followed by exactly the word |
| Handler.Abort | lambda/get-word.ts:55-62 | a non-ok upstream response becomes a response with that status and that text as message; an exception becomes 500 with the catch-all message for the word; never status 200 |
| Handler.Step | lambda/get-word.ts:52-118 | each stage moves strictly forward, keeps success (200) tied to the pronunciation body, and issues exactly one request, except that the audio stage issues none when no file name was found |
| Handler.Run | lambda/get-word.ts:51-126 | from any phase, at most one request per remaining stage; status 200 iff the body is the pronunciation result |
| Handler.Handle | lambda/get-word.ts:38-137 | a missing or empty word gives exactly 400 "Word parameter is required" with no requests, and nothing else does; otherwise 1 to 3 requests, the first being the section query for the word; status 200 iff success body |
| HandlerProperties.SectionsFailureStops | lambda/get-word.ts:52-62 | a non-ok section query yields its status and text (an exception yields 500 and the word message) after exactly that one request |
| HandlerProperties.ContentFailureStops | lambda/get-word.ts:69-79 | a failing content query ends the run after two requests, the second for the located (possibly absent) section, with the upstream status and text (or 500) |
| HandlerProperties.NoAudioSkipsFileInfo | lambda/get-word.ts:95-126 | with no audio file name, no file-information request is made and the result is 200 with the extracted IPA and no audio URL |
| HandlerProperties.FileInfoFailureStops | lambda/get-word.ts:101-113 | a failing file-information query fails the whole request with its status and text, even when an IPA was already found; the query asked for "File:" + the extracted name |
| HandlerProperties.AllStagesSucceed | lambda/get-word.ts:100-126 | three successful stages give 200 with the extracted IPA and the `url` field returned for "File:" + the extracted name (absent when the entry has none), after exactly the three requests in order |
| HandlerProperties.RunFollowsStageOrder | lambda/get-word.ts:51-118 | from any phase, the requests issued belong to the remaining stages in pipeline order, one per stage at most, and the page queries name the word |
| HandlerProperties.CallsFollowStageOrder | lambda/get-word.ts:51-118 | the k-th request issued belongs to stage k (sections, content, file info) and the page queries name the word |
| HandlerProperties.NoPronunciationSectionContinues | lambda/get-word.ts:64-71 | a word without a "Pronunciation" section is not an error: the content query is still issued, for an absent section |
| HandlerProperties.NoTemplatesIsEmptySuccess | lambda/get-word.ts:87-126 | wikitext matching neither pattern gives 200 with both fields absent after exactly two requests |
| Examples.IpaQualifierIgnored | lambda/get-word.ts:82 | the potato template with an RP qualifier yields /pəˈteɪtəʊz/ |
| Examples.IpaAlternatesIgnored | lambda/get-word.ts:83 | the tree template, shortened to its first bracketed alternate, yields /tɹiː/ |
| Examples.AudioQualifierIgnored | lambda/get-word.ts:93 | the setting audio template with a US qualifier yields en-us-setting.ogg |
| Examples.AudioBareTemplate | lambda/get-word.ts:94 | the bare body audio template yields en-uk-body.ogg |
| Examples.IpaSearchMovesPastBracketedTemplate | lambda/get-word.ts:89 | a bracketed IPA template followed by one with /y/ yields /y/: the search does not give up on the first template |
| Examples.IpaSearchMovesPastEmptySlashPair | lambda/get-word.ts:89 | an IPA template whose argument opens with two slashes, followed by one with /y/, yields /y/ |
| PotatoScenario.NoAudioInIpaLine | lambda/get-word.ts:97 | the audio pattern starts nowhere inside a transcription-template line |
| PotatoScenario.PotatoAudio | lambda/get-word.ts:92-98 | in the potato wikitext the audio file name is the one in the audio template, cut before the qualifier |
| PotatoScenario.PotatoIpa | lambda/get-word.ts:82-90 | in the potato wikitext the IPA is /pəˈteɪtəʊz/ |
| PotatoScenario.PotatoEndToEnd | lambda/get-word.ts:38-137 | for "potato" the handler issues the section, content (section "2") and "File:"-prefixed file-info requests in order and answers 200 with the IPA and the `url` field the scenario oracle gives (present or absent), for every audio file name free of bars and closing braces |
| PotatoScenario.PotatoEndToEndLiteral | lambda/get-word.ts:38-137 | the same for the literal file name LL-Q1860 (eng)-Vealhurl-content (verb).wav quoted at line 92 |

## Left out

- HTTP transport: `fetch`, URL construction, and the query strings with their encoding
  are left out. This includes the stray whitespace inside the file-info URL template
  literal and the lack of URL-encoding of the word. Each query is represented only by
  the parameters that vary: the word, the section index, and the `File:` title. An
  absent section index is the `None` the source interpolates as `undefined`.
- Response parsing: `JSON.parse` and the navigation through `query.pages`,
  `Object.keys(...)[0]`, `revisions[0].slots.main["*"]` and `imageinfo[0].url` are left
  out. The oracle returns the parsed payload. A response missing `parse.sections`, the
  first page, `revisions[0]` or `imageinfo[0]` counts as `Throws`, which the handler
  turns into the 500 response. An `imageinfo[0]` without `url` does not throw: the
  oracle answers `Ok(None)` and the handler returns 200 without `audio_url`.
- Section records: every section in the outline is taken to carry an `index`. A
  matched "Pronunciation" record without `index` would make `?.index` `undefined`,
  so the content query would go out as for an absent section; the model does not
  represent such a record.
- `Response.ok`: it is modelled as "status outside 200-299", through the `NotOkStatus`
  subset type. `NotOk` also stands for an ok-flag-false response whose `text()` call
  succeeded. A failing `text()` call is `Throws`.
- Logging: the `console.error` call in the catch block has no observable effect on the
  response and is left out.
- JSON serialization: `JSON.stringify` drops `undefined` fields, so a missing `ipa` or
  `audio_url` is absent from the body. The model represents this as `None` in
  `Pronunciation(ipa, audioUrl)`.
- Characters: the source's strings are UTF-16. The model's strings are sequences of
  Unicode characters. The two regexes only test for ASCII delimiters, so the captured
  text is the same.
- Deployment: the infrastructure stack in lib/word-service-stack.ts (function, gateway,
  caching, throttling, CORS, domain) is declarative deployment configuration and is not
  part of this model.
- Examples.IpaAlternatesIgnored: it states the tree template with only its first bracketed
  alternate. Evaluating the extractor on the full three-alternate literal exceeds the
  verifier's resource limit; `IpaAtFront` covers any text after the slash pair, the full
  line included.
