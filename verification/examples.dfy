/** The template shapes quoted next to the two regular expressions in the
    handler, and the end-to-end "potato" scenario, as instances of the
    general properties. */
module Examples {
  import opened Wrappers
  import opened Markup
  import opened MarkupProperties

  /** Qualifiers after the first slash pair are not captured. */
  lemma IpaQualifierIgnored()
    ensures ExtractIpa("{{IPA|en|/pəˈteɪtəʊz/|a=RP}}") == Some("/pəˈteɪtəʊz/")
  {
    assert IpaOpen + "/" + "pəˈteɪtəʊz" + "/" + "|a=RP}}" == "{{IPA|en|/pəˈteɪtəʊz/|a=RP}}";
    assert "/" + "pəˈteɪtəʊz" + "/" == "/pəˈteɪtəʊz/";
    IpaAtFront("pəˈteɪtəʊz", "|a=RP}}");
  }

  /** Bracketed phonetic alternates after the first slash pair are not captured. */
  lemma IpaAlternatesIgnored()
    ensures ExtractIpa("{{IPA|en|/tɹiː/|[t̠ʰɹʷiː]|}}") == Some("/tɹiː/")
  {
    assert IpaOpen + "/" + "tɹiː" + "/" + "|[t̠ʰɹʷiː]|}}" == "{{IPA|en|/tɹiː/|[t̠ʰɹʷiː]|}}";
    assert "/" + "tɹiː" + "/" == "/tɹiː/";
    IpaAtFront("tɹiː", "|[t̠ʰɹʷiː]|}}");
  }

  /** The file name stops at the first `|`. */
  lemma AudioQualifierIgnored()
    ensures ExtractAudio("{{audio|en|en-us-setting.ogg|a=US}}") == Some("en-us-setting.ogg")
  {
    assert AudioOpen + "en-us-setting.ogg" + "|a=US}}" == "{{audio|en|en-us-setting.ogg|a=US}}";
    AudioAtFront("en-us-setting.ogg", "|a=US}}");
  }

  /** The file name stops at the closing braces. */
  lemma AudioBareTemplate()
    ensures ExtractAudio("{{audio|en|en-uk-body.ogg}}") == Some("en-uk-body.ogg")
  {
    assert AudioOpen + "en-uk-body.ogg" + "}}" == "{{audio|en|en-uk-body.ogg}}";
    AudioAtFront("en-uk-body.ogg", "}}");
  }

  /** A first transcription template that is not followed by a slash pair is
      passed over, and a later one is used. */
  lemma IpaSearchMovesPastBracketedTemplate()
    ensures ExtractIpa("{{IPA|en|[x]}} {{IPA|en|/y/}}") == Some("/y/")
  {
    assert IpaOpen + "[x]}} " + (IpaOpen + "/" + "y" + "/" + "}}") == "{{IPA|en|[x]}} {{IPA|en|/y/}}";
    assert "/" + "y" + "/" == "/y/";
    IpaAtFront("y", "}}");
    IpaSkipsTemplateWithoutSlash("[x]}} ", IpaOpen + "/" + "y" + "/" + "}}");
  }

  /** A first transcription template whose argument opens with two slashes
      has an empty `[^/]+` and is passed over; a later one is used. */
  lemma IpaSearchMovesPastEmptySlashPair()
    ensures ExtractIpa("{{IPA|en|//x/ {{IPA|en|/y/}}") == Some("/y/")
  {
    assert IpaOpen + "//x/ " + (IpaOpen + "/" + "y" + "/" + "}}") == "{{IPA|en|//x/ {{IPA|en|/y/}}";
    assert "/" + "y" + "/" == "/y/";
    IpaAtFront("y", "}}");
    IpaSkipsTemplateWithoutSlash("//x/ ", IpaOpen + "/" + "y" + "/" + "}}");
  }
}

/** An end-to-end scenario for the word "potato", against a scenario oracle:
    the outline has a "Pronunciation" section with index "2", its wikitext
    holds the transcription template `{{IPA|en|/pəˈteɪtəʊz/|a=RP}}` followed
    by an audio template for some file name, and the file-information query
    for that name in the file namespace answers with a given `url` field
    (present or absent). */
module PotatoScenario {
  import opened Wrappers
  import opened Sections
  import opened Markup
  import opened MarkupProperties
  import opened Handler
  import opened HandlerProperties

  const Outline: seq<Section> := [Section("Etymology", "1"), Section("Pronunciation", "2"), Section("Noun", "3")]
  const IpaLine: string := "{{IPA|en|/pəˈteɪtəʊz/|a=RP}}\n* "
  const Qualifier: string := "|a=Southern England}}"

  /** The section's wikitext for a given audio file name. */
  function PotatoText(file: string): string
  {
    IpaLine + (AudioOpen + file + Qualifier)
  }

  /** A scenario oracle for "potato". */
  function PotatoApi(file: string, url: Option<string>): Api
  {
    Api(
      (page: string) => Ok(Outline),
      (page: string, section: Option<string>) => Ok(PotatoText(file)),
      (title: string) => if title == FilePrefix + file then Ok(url) else NotOk(404, "missing"))
  }

  /** The audio pattern starts nowhere in the transcription line: after its
      opening `{{`, which opens a different template, it holds no `{`. */
  lemma NoAudioInIpaLine(t: string)
    ensures forall j: nat, f :: j < |IpaLine| ==> !AudioMatch(IpaLine + t, j, f)
  {
    var s := IpaLine + t;
    var tail := "IPA|en|/pəˈteɪtəʊz/|a=RP}}\n* ";
    assert s == "{{" + (tail + t);
    assert s[2] == 'I';
    assert '{' !in tail;
    NoMatchInBraceFreeText(tail, t);
    forall j: nat, f | j < |IpaLine| ensures !AudioMatch(s, j, f) {
      if j <= 1 {
        NoAudioMatchWithoutBraces(s, j, f);
      } else {
        AudioMatchShift("{{", tail + t, j - 2, f);
      }
    }
  }

  /** The audio template after the transcription line is the one found, and
      the file name stops at the `|` before the qualifier. */
  lemma PotatoAudio(file: string)
    requires |file| >= 1 && '|' !in file && '}' !in file
    ensures ExtractAudio(PotatoText(file)) == Some(file)
  {
    NoAudioInIpaLine(AudioOpen + file + Qualifier);
    AudioSkipsUnmatchedPrefix(IpaLine, AudioOpen + file + Qualifier);
    AudioAtFront(file, Qualifier);
  }

  /** The transcription is the first slash pair of the first template. */
  lemma PotatoIpa(file: string)
    ensures ExtractIpa(PotatoText(file)) == Some("/pəˈteɪtəʊz/")
  {
    var rest := "|a=RP}}\n* " + (AudioOpen + file + Qualifier);
    assert IpaOpen + "/" + "pəˈteɪtəʊz" + "/" + rest == PotatoText(file);
    assert "/" + "pəˈteɪtəʊz" + "/" == "/pəˈteɪtəʊz/";
    IpaAtFront("pəˈteɪtəʊz", rest);
  }

  /** The whole handler on "potato": three requests in order, the third for
      the namespaced file name, then status 200 with the transcription and the `url` field as the
      file-information query gave it. */
  lemma PotatoEndToEnd(file: string, url: Option<string>)
    requires |file| >= 1 && '|' !in file && '}' !in file
    ensures Handle(Some("potato"), PotatoApi(file, url)) ==
      Outcome(Response(200, Pronunciation(Some("/pəˈteɪtəʊz/"), url)),
              [SectionsQuery("potato"), ContentQuery("potato", Some("2")), FileInfoQuery("File:" + file)])
  {
    var api := PotatoApi(file, url);
    assert FirstTitled(Outline, PronunciationTitle, 1);
    assert PronunciationIndex(Outline) == Some("2") by {
      var k :| FirstTitled(Outline, PronunciationTitle, k) && PronunciationIndex(Outline).value == Outline[k].index;
      FirstTitledUnique(Outline, PronunciationTitle, k, 1);
    }
    PotatoIpa(file);
    PotatoAudio(file);
    AllStagesSucceed("potato", api);
  }

  /** The file name quoted beside the audio pattern at lambda/get-word.ts:92. */
  const PotatoFile: string := "LL-Q1860 (eng)-Vealhurl-content (verb).wav"

  /** The end-to-end scenario for that literal file name. */
  lemma PotatoEndToEndLiteral(url: Option<string>)
    ensures Handle(Some("potato"), PotatoApi(PotatoFile, url)) ==
      Outcome(Response(200, Pronunciation(Some("/pəˈteɪtəʊz/"), url)),
              [SectionsQuery("potato"), ContentQuery("potato", Some("2")), FileInfoQuery("File:" + PotatoFile)])
  {
    forall k | 0 <= k < |PotatoFile| ensures PotatoFile[k] != '|' && PotatoFile[k] != '}' {
    }
    PotatoEndToEnd(PotatoFile, url);
  }
}
