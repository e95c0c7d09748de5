/** The two extractors that the handler applies to the raw wikitext of the
    pronunciation section. Each is a first-match search for one fixed regular
    expression, written out by hand:

      IPA:   \{\{IPA\|en\|(\/[^/]+\/)     -- group 1 is the first slash pair
      audio: \{\{audio\|en\|([^|}]+)      -- group 1 is the file name

    Each pattern is given a declarative meaning (`IpaMatch`, `AudioMatch`: "the
    pattern matches at position i and captures c"), and the search is proved to
    return the capture at the leftmost position where that meaning holds.
 */
module Markup {
  import opened Wrappers

  /** The literal prefix of the transcription template. */
  const IpaOpen: string := "{{IPA|en|"

  /** The literal prefix of the audio-reference template. */
  const AudioOpen: string := "{{audio|en|"

  /** `t` occurs in `s` starting at position `i`. */
  predicate OpensAt(s: string, i: nat, t: string)
  {
    i + |t| <= |s| && s[i..i + |t|] == t
  }

  /** The character class `[^|}]`: characters a file name may contain. */
  predicate IsFileChar(ch: char)
  {
    ch != '|' && ch != '}'
  }

  predicate IsSlash(ch: char)
  {
    ch == '/'
  }

  /** The group `\/[^/]+\/`: a slash, at least one non-slash, a slash. */
  ghost predicate IsSlashPair(c: string)
  {
    && |c| >= 3
    && c[0] == '/'
    && c[|c| - 1] == '/'
    && forall k :: 0 < k < |c| - 1 ==> c[k] != '/'
  }

  /** The IPA pattern matches at position `i` of `s`, capturing `c`. */
  ghost predicate IpaMatch(s: string, i: nat, c: string)
  {
    && OpensAt(s, i, IpaOpen)
    && OpensAt(s, i + |IpaOpen|, c)
    && IsSlashPair(c)
  }

  /** The IPA pattern matches first at `i`: no earlier position matches at all. */
  ghost predicate LeftmostIpa(s: string, i: nat, c: string)
  {
    && IpaMatch(s, i, c)
    && forall j: nat, c': string :: j < i ==> !IpaMatch(s, j, c')
  }

  /** The audio pattern matches at position `i` of `s`, capturing `f`: `f` is a
      non-empty run of file characters right after the prefix, and the greedy
      `+` makes it maximal (the next character is `|`, `}` or the end). */
  ghost predicate AudioMatch(s: string, i: nat, f: string)
  {
    && OpensAt(s, i, AudioOpen)
    && OpensAt(s, i + |AudioOpen|, f)
    && |f| >= 1
    && (forall k :: 0 <= k < |f| ==> IsFileChar(f[k]))
    && (i + |AudioOpen| + |f| == |s| || !IsFileChar(s[i + |AudioOpen| + |f|]))
  }

  /** The audio pattern matches first at `i`. */
  ghost predicate LeftmostAudio(s: string, i: nat, f: string)
  {
    && AudioMatch(s, i, f)
    && forall j: nat, f': string :: j < i ==> !AudioMatch(s, j, f')
  }

  /** A successful search: where the pattern matched and what group 1 captured. */
  datatype Found = Found(pos: nat, text: string)

  /** The first position at or after `from` whose character satisfies `stop`,
      or `|s|` when there is none. */
  function ScanTo(s: string, from: nat, stop: char -> bool): (k: nat)
    requires from <= |s|
    ensures from <= k <= |s|
    ensures forall m :: from <= m < k ==> !stop(s[m])
    ensures k < |s| ==> stop(s[k])
    decreases |s| - from
  {
    if from == |s| || stop(s[from]) then from else ScanTo(s, from + 1, stop)
  }

  // ---------------------------------------------------------------- IPA

  /** Runs the IPA pattern anchored at `i`. After the prefix and the opening
      slash, `[^/]+` takes every non-slash character, so the only way to finish
      is the first slash after that point, which must not be adjacent. */
  function MatchIpaAt(s: string, i: nat): (r: Option<string>)
    ensures r.Some? ==> IpaMatch(s, i, r.value)
    ensures r.None? ==> forall c :: !IpaMatch(s, i, c)
  {
    var open := i + |IpaOpen|;
    if OpensAt(s, i, IpaOpen) && open < |s| && IsSlash(s[open]) then
      var close := ScanTo(s, open + 1, IsSlash);
      if close < |s| && close > open + 1 then
        var c := s[open..close + 1];
        assert forall k :: 0 < k < |c| - 1 ==> c[k] != '/' by {
          forall k | 0 < k < |c| - 1 ensures c[k] != '/' {
            assert c[k] == s[open + k] && !IsSlash(s[open + k]);
          }
        }
        Some(c)
      else
        assert forall c :: !IpaMatch(s, i, c) by {
          forall c | IpaMatch(s, i, c) ensures false {
            IpaCaptureEndsAtFirstSlash(s, i, c);
          }
        }
        None
    else
      None
  }

  /** When the IPA pattern matches at `i`, the closing slash of the capture is
      the first slash after the opening one. */
  lemma IpaCaptureEndsAtFirstSlash(s: string, i: nat, c: string)
    requires IpaMatch(s, i, c)
    ensures ScanTo(s, i + |IpaOpen| + 1, IsSlash) == i + |IpaOpen| + |c| - 1
  {
    var open := i + |IpaOpen|;
    var close := open + |c| - 1;
    forall m | open <= m <= close ensures s[m] == c[m - open] {
      assert s[open..open + |c|][m - open] == s[m];
    }
    forall m | open + 1 <= m < close ensures !IsSlash(s[m]) {
      assert s[m] == c[m - open];
    }
    assert IsSlash(s[close]);
  }

  /** At most one capture per position: the regex engine's answer is determined. */
  lemma IpaMatchUnique(s: string, i: nat, c1: string, c2: string)
    requires IpaMatch(s, i, c1) && IpaMatch(s, i, c2)
    ensures c1 == c2
  {
    IpaCaptureEndsAtFirstSlash(s, i, c1);
    IpaCaptureEndsAtFirstSlash(s, i, c2);
    assert |c1| == |c2|;
  }

  /** Leftmost search for the IPA pattern among positions `from`, `from + 1`, ... */
  function FindIpa(s: string, from: nat): (r: Option<Found>)
    requires from <= |s|
    ensures r.Some? ==> from <= r.value.pos && IpaMatch(s, r.value.pos, r.value.text)
    ensures r.Some? ==> forall j: nat, c :: from <= j < r.value.pos ==> !IpaMatch(s, j, c)
    ensures r.None? ==> forall j: nat, c :: from <= j ==> !IpaMatch(s, j, c)
    decreases |s| - from
  {
    if from == |s| then None
    else
      match MatchIpaAt(s, from)
      case Some(c) => Some(Found(from, c))
      case None => FindIpa(s, from + 1)
  }

  /** `String.prototype.match` with the IPA pattern: group 1 of the leftmost
      match, or None when the pattern matches nowhere. */
  function ExtractIpa(s: string): (r: Option<string>)
    ensures r.Some? ==> exists i: nat :: LeftmostIpa(s, i, r.value)
    ensures r.None? <==> forall i: nat, c :: !IpaMatch(s, i, c)
  {
    match FindIpa(s, 0)
    case Some(m) =>
      assert LeftmostIpa(s, m.pos, m.text);
      Some(m.text)
    case None => None
  }

  // ---------------------------------------------------------------- audio

  /** Runs the audio pattern anchored at `i`: after the prefix, the greedy
      `[^|}]+` runs up to the first `|` or `}` (or the end), and needs at least
      one character. */
  function MatchAudioAt(s: string, i: nat): (r: Option<string>)
    ensures r.Some? ==> AudioMatch(s, i, r.value)
    ensures r.None? ==> forall f :: !AudioMatch(s, i, f)
  {
    var open := i + |AudioOpen|;
    if OpensAt(s, i, AudioOpen) then
      var end := ScanTo(s, open, (ch: char) => !IsFileChar(ch));
      if end > open then
        var f := s[open..end];
        assert forall k :: 0 <= k < |f| ==> IsFileChar(f[k]) by {
          forall k | 0 <= k < |f| ensures IsFileChar(f[k]) {
            assert f[k] == s[open + k];
          }
        }
        Some(f)
      else
        assert forall f :: !AudioMatch(s, i, f) by {
          forall f | AudioMatch(s, i, f) ensures false {
            AudioCaptureIsMaximalRun(s, i, f);
          }
        }
        None
    else
      None
  }

  /** When the audio pattern matches at `i`, the capture ends exactly where the
      run of file characters after the prefix ends. */
  lemma AudioCaptureIsMaximalRun(s: string, i: nat, f: string)
    requires AudioMatch(s, i, f)
    ensures ScanTo(s, i + |AudioOpen|, (ch: char) => !IsFileChar(ch)) == i + |AudioOpen| + |f|
  {
    var open := i + |AudioOpen|;
    forall m | open <= m < open + |f| ensures IsFileChar(s[m]) {
      assert s[open..open + |f|][m - open] == s[m];
    }
  }

  /** At most one capture per position. */
  lemma AudioMatchUnique(s: string, i: nat, f1: string, f2: string)
    requires AudioMatch(s, i, f1) && AudioMatch(s, i, f2)
    ensures f1 == f2
  {
    AudioCaptureIsMaximalRun(s, i, f1);
    AudioCaptureIsMaximalRun(s, i, f2);
    assert |f1| == |f2|;
  }

  /** Leftmost search for the audio pattern among positions `from`, `from + 1`, ... */
  function FindAudio(s: string, from: nat): (r: Option<Found>)
    requires from <= |s|
    ensures r.Some? ==> from <= r.value.pos && AudioMatch(s, r.value.pos, r.value.text)
    ensures r.Some? ==> forall j: nat, f :: from <= j < r.value.pos ==> !AudioMatch(s, j, f)
    ensures r.None? ==> forall j: nat, f :: from <= j ==> !AudioMatch(s, j, f)
    decreases |s| - from
  {
    if from == |s| then None
    else
      match MatchAudioAt(s, from)
      case Some(f) => Some(Found(from, f))
      case None => FindAudio(s, from + 1)
  }

  /** `String.prototype.match` with the audio pattern: group 1 of the leftmost
      match, or None when the pattern matches nowhere. */
  function ExtractAudio(s: string): (r: Option<string>)
    ensures r.Some? ==> exists i: nat :: LeftmostAudio(s, i, r.value)
    ensures r.None? <==> forall i: nat, f :: !AudioMatch(s, i, f)
  {
    match FindAudio(s, 0)
    case Some(m) =>
      assert LeftmostAudio(s, m.pos, m.text);
      Some(m.text)
    case None => None
  }
}

/** Properties of the two extractors that relate several calls or pin down
    concrete template shapes. */
module MarkupProperties {
  import opened Wrappers
  import opened Markup

  /** The converse of `ExtractIpa`'s contract: whatever the leftmost match
      captures is exactly what is extracted. */
  lemma IpaLeftmostIsExtracted(s: string, i: nat, c: string)
    requires LeftmostIpa(s, i, c)
    ensures ExtractIpa(s) == Some(c)
  {
    var r := ExtractIpa(s);
    var i': nat :| LeftmostIpa(s, i', r.value);
    assert i' == i;
    IpaMatchUnique(s, i, c, r.value);
  }

  /** The converse of `ExtractAudio`'s contract. */
  lemma AudioLeftmostIsExtracted(s: string, i: nat, f: string)
    requires LeftmostAudio(s, i, f)
    ensures ExtractAudio(s) == Some(f)
  {
    var r := ExtractAudio(s);
    var i': nat :| LeftmostAudio(s, i', r.value);
    assert i' == i;
    AudioMatchUnique(s, i, f, r.value);
  }

  /** A transcription template at the very start of the text yields its first
      slash pair, whatever follows it: alternates, qualifiers, the closing
      braces. */
  lemma IpaAtFront(body: string, rest: string)
    requires |body| >= 1 && '/' !in body
    ensures ExtractIpa(IpaOpen + "/" + body + "/" + rest) == Some("/" + body + "/")
  {
    var c := "/" + body + "/";
    var s := IpaOpen + c + rest;
    assert IpaOpen + "/" + body + "/" + rest == s;
    assert s[..|IpaOpen|] == IpaOpen;
    assert s[|IpaOpen|..|IpaOpen| + |c|] == c;
    forall k | 0 < k < |c| - 1 ensures c[k] != '/' {
      assert c[k] == body[k - 1];
    }
    assert IpaMatch(s, 0, c);
    IpaLeftmostIsExtracted(s, 0, c);
  }

  /** An audio template at the very start of the text yields the file name up
      to the first `|` or `}` (or the end of the text). */
  lemma AudioAtFront(f: string, rest: string)
    requires |f| >= 1 && '|' !in f && '}' !in f
    requires rest == [] || !IsFileChar(rest[0])
    ensures ExtractAudio(AudioOpen + f + rest) == Some(f)
  {
    var s := AudioOpen + f + rest;
    assert s[..|AudioOpen|] == AudioOpen;
    assert s[|AudioOpen|..|AudioOpen| + |f|] == f;
    if rest != [] {
      assert s[|AudioOpen| + |f|] == rest[0];
    }
    forall k | 0 <= k < |f| ensures IsFileChar(f[k]) {
      assert f[k] in f;
    }
    assert AudioMatch(s, 0, f);
    AudioLeftmostIsExtracted(s, 0, f);
  }

  /** Whether the IPA pattern matches at a position depends only on the text
      from that position on. */
  lemma IpaMatchShift(pre: string, t: string, k: nat, c: string)
    ensures IpaMatch(pre + t, |pre| + k, c) <==> IpaMatch(t, k, c)
  {
  }

  /** Whether the audio pattern matches at a position depends only on the text
      from that position on. */
  lemma AudioMatchShift(pre: string, t: string, k: nat, f: string)
    ensures AudioMatch(pre + t, |pre| + k, f) <==> AudioMatch(t, k, f)
  {
  }

  /** The IPA pattern can only match where `{{` is written with a slash
      right after the template prefix. */
  lemma NoIpaMatchWithoutOpening(s: string, i: nat, c: string)
    requires i + |IpaOpen| >= |s| || s[i] != '{' || s[i + 1] != '{' || s[i + |IpaOpen|] != '/'
    ensures !IpaMatch(s, i, c)
  {
  }

  /** The audio pattern can only match where `{{a` is written. */
  lemma NoAudioMatchWithoutBraces(s: string, i: nat, f: string)
    requires i + 2 >= |s| || s[i] != '{' || s[i + 1] != '{' || s[i + 2] != 'a'
    ensures !AudioMatch(s, i, f)
  {
  }

  /** Neither pattern starts inside text that holds no `{`. */
  lemma NoMatchInBraceFreeText(u: string, t: string)
    requires '{' !in u
    ensures forall j: nat, c :: j < |u| ==> !IpaMatch(u + t, j, c)
    ensures forall j: nat, f :: j < |u| ==> !AudioMatch(u + t, j, f)
  {
    var s := u + t;
    forall j: nat | j < |u| ensures s[j] != '{' {
      assert s[j] == u[j];
    }
    forall j: nat, c | j < |u| ensures !IpaMatch(s, j, c) {
      NoIpaMatchWithoutOpening(s, j, c);
    }
    forall j: nat, f | j < |u| ensures !AudioMatch(s, j, f) {
      NoAudioMatchWithoutBraces(s, j, f);
    }
  }

  /** Text in which the IPA pattern never starts does not change the result:
      the search moves past a template that does not match (for instance one
      whose transcription is bracketed rather than slashed) to a later one. */
  lemma IpaSkipsUnmatchedPrefix(pre: string, t: string)
    requires forall j: nat, c :: j < |pre| ==> !IpaMatch(pre + t, j, c)
    ensures ExtractIpa(pre + t) == ExtractIpa(t)
  {
    var s := pre + t;
    match ExtractIpa(t)
    case Some(c) =>
      var k: nat :| LeftmostIpa(t, k, c);
      IpaMatchShift(pre, t, k, c);
      forall j: nat, c' | j < |pre| + k ensures !IpaMatch(s, j, c') {
        if j >= |pre| {
          IpaMatchShift(pre, t, j - |pre|, c');
        }
      }
      IpaLeftmostIsExtracted(s, |pre| + k, c);
    case None =>
      forall j: nat, c' ensures !IpaMatch(s, j, c') {
        if j >= |pre| {
          IpaMatchShift(pre, t, j - |pre|, c');
        }
      }
  }

  /** Text in which the audio pattern never starts does not change the result. */
  lemma AudioSkipsUnmatchedPrefix(pre: string, t: string)
    requires forall j: nat, f :: j < |pre| ==> !AudioMatch(pre + t, j, f)
    ensures ExtractAudio(pre + t) == ExtractAudio(t)
  {
    var s := pre + t;
    match ExtractAudio(t)
    case Some(f) =>
      var k: nat :| LeftmostAudio(t, k, f);
      AudioMatchShift(pre, t, k, f);
      forall j: nat, f' | j < |pre| + k ensures !AudioMatch(s, j, f') {
        if j >= |pre| {
          AudioMatchShift(pre, t, j - |pre|, f');
        }
      }
      AudioLeftmostIsExtracted(s, |pre| + k, f);
    case None =>
      forall j: nat, f' ensures !AudioMatch(s, j, f') {
        if j >= |pre| {
          AudioMatchShift(pre, t, j - |pre|, f');
        }
      }
  }

  /** A transcription template whose argument is not a slash pair -- it does
      not start with a slash (a bracketed phonetic form), or it starts with
      two slashes (`{{IPA|en|//...`, where `[^/]+` has nothing to take) -- is
      passed over and the search continues with the text after it, provided
      that text before the next template holds no `{`. */
  lemma IpaSkipsTemplateWithoutSlash(x: string, t: string)
    requires x != [] && (x[0] != '/' || (|x| >= 2 && x[1] == '/')) && '{' !in x
    ensures ExtractIpa(IpaOpen + x + t) == ExtractIpa(t)
  {
    var pre := IpaOpen + x;
    var s := pre + t;
    var tail := "IPA|en|" + x;
    assert IpaOpen + x + t == s;
    assert s == "{{" + (tail + t);
    assert s[2] == 'I' && s[|IpaOpen|] == x[0];
    NoMatchInBraceFreeText(tail, t);
    forall j: nat, c | j < |pre| ensures !IpaMatch(s, j, c) {
      if j == 0 {
        if x[0] != '/' {
          NoIpaMatchWithoutOpening(s, j, c);
        } else {
          assert s[|IpaOpen| + 1] == x[1];
          if OpensAt(s, |IpaOpen|, c) && |c| >= 3 {
            assert c[1] == s[|IpaOpen|..|IpaOpen| + |c|][1] == s[|IpaOpen| + 1];
          }
        }
      } else if j == 1 {
        NoIpaMatchWithoutOpening(s, j, c);
      } else {
        IpaMatchShift("{{", tail + t, j - 2, c);
      }
    }
    IpaSkipsUnmatchedPrefix(pre, t);
  }

  /** Every extracted transcription is a slash pair, so it never carries the
      bracketed phonetic variants or `a=` qualifiers that may follow it. */
  lemma ExtractedIpaShape(s: string)
    requires ExtractIpa(s).Some?
    ensures IsSlashPair(ExtractIpa(s).value)
  {
  }

  /** Every extracted file name is non-empty and free of `|` and `}`, so the
      `a=` qualifiers after it are never part of it. */
  lemma ExtractedAudioShape(s: string)
    requires ExtractAudio(s).Some?
    ensures |ExtractAudio(s).value| >= 1
    ensures forall k :: 0 <= k < |ExtractAudio(s).value| ==> IsFileChar(ExtractAudio(s).value[k])
  {
  }
}
