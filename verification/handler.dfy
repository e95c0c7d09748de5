/** The request handler: a guard on the word, then three strictly sequential
    upstream lookups (section outline, section wikitext, file information)
    with extraction in between, and one envelope that turns every outcome
    into a status code and a body.

    The network is an oracle (`Api`): each lookup is a total function from
    the request's parameters to an `Upstream` outcome. The handler returns
    the response together with the list of requests it issued, so that
    "no request is made" and "no later stage runs" can be stated.
 */
module Handler {
  import opened Wrappers
  import opened Sections
  import opened Markup

  /** A status for which `Response.ok` is false: anything outside 200-299. */
  type NotOkStatus = s: int | !(200 <= s < 300) witness 500

  /** What one awaited lookup produced: a parsed payload when the response
      was ok, the status and body text of a response that was not, or an
      exception (network failure, unparsable JSON, or a response missing
      `parse.sections`, the first page, `revisions[0]` or `imageinfo[0]`). */
  datatype Upstream<+T> = Ok(payload: T) | NotOk(status: NotOkStatus, text: string) | Throws

  /** The dictionary's three read-only queries.
      - `sections(page)`: the section outline of `page`;
      - `content(page, section)`: the main-slot wikitext of the first page's
        latest revision, restricted to `section` (None is sent as `undefined`);
      - `fileInfo(title)`: the `url` of the first image-info entry of
        `title`, None when that entry has no `url` (the source then reads
        `undefined` without failing). */
  datatype Api = Api(
    sections: string -> Upstream<seq<Section>>,
    content: (string, Option<string>) -> Upstream<string>,
    fileInfo: string -> Upstream<Option<string>>)

  /** A request issued to the dictionary. */
  datatype Call =
    | SectionsQuery(page: string)
    | ContentQuery(page: string, section: Option<string>)
    | FileInfoQuery(title: string)

  /** The JSON body: `{message}` on failure, `{ipa?, audio_url?}` on success
      (an absent field is one that `JSON.stringify` drops). */
  datatype Body = Message(message: string) | Pronunciation(ipa: Option<string>, audioUrl: Option<string>)

  datatype Response = Response(status: int, body: Body)

  /** The handler's response and the requests it issued, in order. */
  datatype Outcome = Outcome(response: Response, calls: seq<Call>)

  const WordRequired: string := "Word parameter is required"

  /** The file-namespace marker put in front of an audio file name. */
  const FilePrefix: string := "File:"

  const FetchErrorPrefix: string := "Error fetching data for word "

  /** The message of the catch-all 500 response: a fixed prefix followed by
      the word, so the word can be read back from the message. */
  function FetchErrorMessage(word: string): (m: string)
    ensures |m| == |FetchErrorPrefix| + |word|
    ensures m[..|FetchErrorPrefix|] == FetchErrorPrefix && m[|FetchErrorPrefix|..] == word
  {
    FetchErrorPrefix + word
  }

  /** The word guard accepts only a present, non-empty word. */
  predicate Accepted(word: Option<string>)
  {
    word.Some? && word.value != ""
  }

  /** The handler's progress through its stages. */
  datatype Phase =
    | Start
    | Located(section: Option<string>)
    | Extracted(ipa: Option<string>, audio: Option<string>)
    | Finished(response: Response)

  /** How many stages remain; every step strictly lowers it. */
  function Remaining(p: Phase): nat
  {
    match p
    case Start => 3
    case Located(_) => 2
    case Extracted(_, _) => 1
    case Finished(_) => 0
  }

  /** A finished phase reports success (status 200) exactly when its body is
      the pronunciation result. */
  predicate Consistent(p: Phase)
  {
    p.Finished? ==> (p.response.status == 200 <==> p.response.body.Pronunciation?)
  }

  /** The response for a lookup that did not produce a payload: a non-ok
      status is passed through with the body text as the message, and an
      exception becomes the generic 500. */
  function Abort<T>(word: string, u: Upstream<T>): (r: Response)
    requires !u.Ok?
    ensures r.body.Message? && r.status != 200
    ensures u.NotOk? ==> r.status == u.status && r.body.message == u.text
    ensures u.Throws? ==> r.status == 500 && r.body.message == FetchErrorMessage(word)
  {
    match u
    case NotOk(status, text) => Response(status, Message(text))
    case Throws => Response(500, Message(FetchErrorMessage(word)))
  }

  /** One stage: the phase it moves to and the request it issued (none when
      there is no audio file name to resolve). */
  function Step(word: string, api: Api, p: Phase): (r: (Phase, seq<Call>))
    requires !p.Finished?
    ensures Remaining(r.0) < Remaining(p)
    ensures Consistent(r.0)
    ensures |r.1| == (if p.Extracted? && p.audio.None? then 0 else 1)
  {
    match p
    case Start =>
      var u := api.sections(word);
      var next := if u.Ok? then Located(PronunciationIndex(u.payload)) else Finished(Abort(word, u));
      (next, [SectionsQuery(word)])
    case Located(section) =>
      var u := api.content(word, section);
      var next := if u.Ok? then Extracted(ExtractIpa(u.payload), ExtractAudio(u.payload)) else Finished(Abort(word, u));
      (next, [ContentQuery(word, section)])
    case Extracted(ipa, audio) =>
      match audio
      case None => (Finished(Response(200, Pronunciation(ipa, None))), [])
      case Some(file) =>
        var title := FilePrefix + file;
        var u := api.fileInfo(title);
        var next := if u.Ok? then Finished(Response(200, Pronunciation(ipa, u.payload))) else Finished(Abort(word, u));
        (next, [FileInfoQuery(title)])
  }

  /** Runs the stages from `p` until the handler has a response. */
  function Run(word: string, api: Api, p: Phase): (r: Outcome)
    requires Consistent(p)
    ensures |r.calls| <= Remaining(p)
    ensures p.Finished? ==> r.response == p.response
    ensures r.response.status == 200 <==> r.response.body.Pronunciation?
    decreases Remaining(p)
  {
    if p.Finished? then
      Outcome(p.response, [])
    else
      var (next, calls) := Step(word, api, p);
      var rest := Run(word, api, next);
      Outcome(rest.response, calls + rest.calls)
  }

  /** The handler. A missing or empty word is rejected before any request;
      otherwise the stages run from the start. */
  function Handle(word: Option<string>, api: Api): (r: Outcome)
    ensures !Accepted(word) <==> r == Outcome(Response(400, Message(WordRequired)), [])
    ensures Accepted(word) ==> 1 <= |r.calls| <= 3 && r.calls[0] == SectionsQuery(word.value)
    ensures r.response.status == 200 <==> r.response.body.Pronunciation?
  {
    match word
    case None => Outcome(Response(400, Message(WordRequired)), [])
    case Some(w) =>
      if w == "" then Outcome(Response(400, Message(WordRequired)), [])
      else Run(w, api, Start)
  }
}

/** What the handler does, stage by stage, stated against the oracle's
    answers rather than against the phase machine. */
module HandlerProperties {
  import opened Wrappers
  import opened Sections
  import opened Markup
  import opened Handler

  /** Stage 1 fails: its status and text are the response, and it is the only
      request made. */
  lemma SectionsFailureStops(w: string, api: Api)
    requires w != "" && !api.sections(w).Ok?
    ensures api.sections(w).NotOk? ==>
      Handle(Some(w), api) == Outcome(Response(api.sections(w).status, Message(api.sections(w).text)), [SectionsQuery(w)])
    ensures api.sections(w).Throws? ==>
      Handle(Some(w), api) == Outcome(Response(500, Message(FetchErrorMessage(w))), [SectionsQuery(w)])
  {
    var done := Finished(Abort(w, api.sections(w)));
    assert Step(w, api, Start) == (done, [SectionsQuery(w)]);
    assert Run(w, api, done) == Outcome(done.response, []);
  }

  /** Stage 2 fails: the section query was made, the content query for the
      located section (absent or not) was made, and nothing else. */
  lemma ContentFailureStops(w: string, api: Api)
    requires w != "" && api.sections(w).Ok?
    requires !api.content(w, PronunciationIndex(api.sections(w).payload)).Ok?
    ensures var section := PronunciationIndex(api.sections(w).payload);
      var u := api.content(w, section);
      var calls := [SectionsQuery(w), ContentQuery(w, section)];
      && (u.NotOk? ==> Handle(Some(w), api) == Outcome(Response(u.status, Message(u.text)), calls))
      && (u.Throws? ==> Handle(Some(w), api) == Outcome(Response(500, Message(FetchErrorMessage(w))), calls))
  {
    var section := PronunciationIndex(api.sections(w).payload);
    var done := Finished(Abort(w, api.content(w, section)));
    assert Step(w, api, Start) == (Located(section), [SectionsQuery(w)]);
    assert Step(w, api, Located(section)) == (done, [ContentQuery(w, section)]);
    assert Run(w, api, done) == Outcome(done.response, []);
    assert Run(w, api, Located(section)) == Outcome(done.response, [ContentQuery(w, section)]);
  }

  /** No audio file name in the wikitext: no file-information request is made,
      the response is a success without an audio URL, and the transcription is
      whatever the IPA extractor found. */
  lemma NoAudioSkipsFileInfo(w: string, api: Api)
    requires w != "" && api.sections(w).Ok?
    requires api.content(w, PronunciationIndex(api.sections(w).payload)).Ok?
    requires ExtractAudio(api.content(w, PronunciationIndex(api.sections(w).payload)).payload).None?
    ensures var section := PronunciationIndex(api.sections(w).payload);
      var text := api.content(w, section).payload;
      Handle(Some(w), api) == Outcome(Response(200, Pronunciation(ExtractIpa(text), None)),
                                      [SectionsQuery(w), ContentQuery(w, section)])
  {
    var section := PronunciationIndex(api.sections(w).payload);
    var text := api.content(w, section).payload;
    var ipa := ExtractIpa(text);
    var done := Finished(Response(200, Pronunciation(ipa, None)));
    assert Step(w, api, Start) == (Located(section), [SectionsQuery(w)]);
    assert Step(w, api, Located(section)) == (Extracted(ipa, None), [ContentQuery(w, section)]);
    assert Step(w, api, Extracted(ipa, None)) == (done, []);
    assert Run(w, api, done) == Outcome(done.response, []);
    assert Run(w, api, Extracted(ipa, None)) == Outcome(done.response, []);
    assert Run(w, api, Located(section)) == Outcome(done.response, [ContentQuery(w, section)]);
  }

  /** Stage 3 fails: the whole request fails with its status and text, even
      when a transcription had already been extracted. The file-information
      request asked for the extracted name in the file namespace. */
  lemma FileInfoFailureStops(w: string, api: Api)
    requires w != "" && api.sections(w).Ok?
    requires api.content(w, PronunciationIndex(api.sections(w).payload)).Ok?
    requires ExtractAudio(api.content(w, PronunciationIndex(api.sections(w).payload)).payload).Some?
    requires !api.fileInfo(FilePrefix + ExtractAudio(api.content(w, PronunciationIndex(api.sections(w).payload)).payload).value).Ok?
    ensures var section := PronunciationIndex(api.sections(w).payload);
      var text := api.content(w, section).payload;
      var title := "File:" + ExtractAudio(text).value;
      var u := api.fileInfo(title);
      var calls := [SectionsQuery(w), ContentQuery(w, section), FileInfoQuery(title)];
      && (u.NotOk? ==> Handle(Some(w), api) == Outcome(Response(u.status, Message(u.text)), calls))
      && (u.Throws? ==> Handle(Some(w), api) == Outcome(Response(500, Message(FetchErrorMessage(w))), calls))
  {
    var section := PronunciationIndex(api.sections(w).payload);
    var text := api.content(w, section).payload;
    var ipa, audio := ExtractIpa(text), ExtractAudio(text);
    var title := FilePrefix + audio.value;
    var u := api.fileInfo(title);
    var done := Finished(Abort(w, u));
    assert Step(w, api, Start) == (Located(section), [SectionsQuery(w)]);
    assert Step(w, api, Located(section)) == (Extracted(ipa, audio), [ContentQuery(w, section)]);
    assert Step(w, api, Extracted(ipa, audio)) == (done, [FileInfoQuery(title)]);
    assert Run(w, api, done) == Outcome(done.response, []);
    assert Run(w, api, Extracted(ipa, audio)) == Outcome(done.response, [FileInfoQuery(title)]);
    assert Run(w, api, Located(section)) == Outcome(done.response, [ContentQuery(w, section), FileInfoQuery(title)]);
  }

  /** All three stages succeed: status 200 with the extracted transcription and
      whatever `url` the file-information query gave for the "File:"-prefixed
      file name (absent when its entry has none). */
  lemma AllStagesSucceed(w: string, api: Api)
    requires w != "" && api.sections(w).Ok?
    requires api.content(w, PronunciationIndex(api.sections(w).payload)).Ok?
    requires ExtractAudio(api.content(w, PronunciationIndex(api.sections(w).payload)).payload).Some?
    requires api.fileInfo(FilePrefix + ExtractAudio(api.content(w, PronunciationIndex(api.sections(w).payload)).payload).value).Ok?
    ensures var section := PronunciationIndex(api.sections(w).payload);
      var text := api.content(w, section).payload;
      var title := "File:" + ExtractAudio(text).value;
      Handle(Some(w), api) == Outcome(Response(200, Pronunciation(ExtractIpa(text), api.fileInfo(title).payload)),
                                      [SectionsQuery(w), ContentQuery(w, section), FileInfoQuery(title)])
  {
    var section := PronunciationIndex(api.sections(w).payload);
    var text := api.content(w, section).payload;
    var ipa, audio := ExtractIpa(text), ExtractAudio(text);
    var title := FilePrefix + audio.value;
    var done := Finished(Response(200, Pronunciation(ipa, api.fileInfo(title).payload)));
    assert Step(w, api, Start) == (Located(section), [SectionsQuery(w)]);
    assert Step(w, api, Located(section)) == (Extracted(ipa, audio), [ContentQuery(w, section)]);
    assert Step(w, api, Extracted(ipa, audio)) == (done, [FileInfoQuery(title)]);
    assert Run(w, api, done) == Outcome(done.response, []);
    assert Run(w, api, Extracted(ipa, audio)) == Outcome(done.response, [FileInfoQuery(title)]);
    assert Run(w, api, Located(section)) == Outcome(done.response, [ContentQuery(w, section), FileInfoQuery(title)]);
  }

  /** Position of a request's stage in the pipeline. */
  function StageOf(c: Call): nat
  {
    match c
    case SectionsQuery(_) => 0
    case ContentQuery(_, _) => 1
    case FileInfoQuery(_) => 2
  }

  /** Run from any phase issues the requests of the remaining stages in
      pipeline order, one per stage at most, and the page queries name the
      word. */
  lemma {:induction false} RunFollowsStageOrder(w: string, api: Api, p: Phase)
    requires Consistent(p)
    ensures var r := Run(w, api, p);
      && (forall k :: 0 <= k < |r.calls| ==> StageOf(r.calls[k]) == 3 - Remaining(p) + k)
      && (forall k :: 0 <= k < |r.calls| && !r.calls[k].FileInfoQuery? ==> r.calls[k].page == w)
    decreases Remaining(p)
  {
    if !p.Finished? {
      var (next, calls) := Step(w, api, p);
      RunFollowsStageOrder(w, api, next);
      var rest := Run(w, api, next);
      assert Run(w, api, p).calls == calls + rest.calls;
      assert rest.calls != [] ==> !next.Finished? && Remaining(next) == Remaining(p) - 1;
      assert calls != [] ==> StageOf(calls[0]) == 3 - Remaining(p);
      assert calls != [] && !calls[0].FileInfoQuery? ==> calls[0].page == w;
    }
  }

  /** The requests go strictly forward: the k-th request issued belongs to
      stage k, so no stage is repeated, skipped over and later revisited, or
      run after a failure; and the page queries name the word itself. */
  lemma CallsFollowStageOrder(word: Option<string>, api: Api)
    ensures var r := Handle(word, api);
      && (forall k :: 0 <= k < |r.calls| ==> StageOf(r.calls[k]) == k)
      && (forall k :: 0 <= k < |r.calls| && !r.calls[k].FileInfoQuery? ==> r.calls[k].page == word.value)
  {
    if Accepted(word) {
      assert Handle(word, api) == Run(word.value, api, Start);
      assert Remaining(Start) == 3;
      RunFollowsStageOrder(word.value, api, Start);
    } else {
      assert Handle(word, api).calls == [];
    }
  }

  /** A word without a "Pronunciation" section is not an error: the content
      query is still made, for an absent section. */
  lemma NoPronunciationSectionContinues(w: string, api: Api)
    requires w != "" && api.sections(w).Ok?
    requires forall j :: 0 <= j < |api.sections(w).payload| ==> api.sections(w).payload[j].line != "Pronunciation"
    ensures |Handle(Some(w), api).calls| >= 2
    ensures Handle(Some(w), api).calls[1] == ContentQuery(w, None)
  {
    var u := api.content(w, None);
    assert PronunciationIndex(api.sections(w).payload) == None;
    var next := if u.Ok? then Extracted(ExtractIpa(u.payload), ExtractAudio(u.payload)) else Finished(Abort(w, u));
    assert Step(w, api, Start) == (Located(None), [SectionsQuery(w)]);
    assert Step(w, api, Located(None)) == (next, [ContentQuery(w, None)]);
    assert Run(w, api, Located(None)).calls[0] == ContentQuery(w, None);
  }

  /** Finding neither template is not an error: the response is a 200 with
      both fields absent, after exactly two requests. */
  lemma NoTemplatesIsEmptySuccess(w: string, api: Api)
    requires w != "" && api.sections(w).Ok?
    requires api.content(w, PronunciationIndex(api.sections(w).payload)).Ok?
    requires var text := api.content(w, PronunciationIndex(api.sections(w).payload)).payload;
      && (forall i: nat, c :: !IpaMatch(text, i, c))
      && (forall i: nat, f :: !AudioMatch(text, i, f))
    ensures Handle(Some(w), api).response == Response(200, Pronunciation(None, None))
    ensures |Handle(Some(w), api).calls| == 2
  {
    NoAudioSkipsFileInfo(w, api);
  }
}
