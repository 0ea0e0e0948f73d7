/** The 404 page: the Konami-code window over the last key codes, the
    basketball click counter with its easter egg, and the search box that
    sends the visitor to the games list. */
module NotFound {
  import opened Wrappers
  import opened Text
  import opened Uri

  const KonamiSequence: seq<string> :=
    ["ArrowUp", "ArrowUp", "ArrowDown", "ArrowDown",
     "ArrowLeft", "ArrowRight", "ArrowLeft", "ArrowRight",
     "KeyB", "KeyA"]

  /** The last min(n, 10) codes of `codes`. */
  function Window(codes: seq<string>): (w: seq<string>)
    ensures |w| <= |KonamiSequence|
    ensures |codes| <= |KonamiSequence| ==> w == codes
    ensures |codes| > 0 ==> |w| > 0 && w[|w| - 1] == codes[|codes| - 1]
  {
    if |codes| <= |KonamiSequence| then codes else codes[|codes| - |KonamiSequence|..]
  }

  /** Pushing one code and dropping the oldest beyond ten keeps the window
      of the whole history. */
  lemma {:induction false} WindowPush(codes: seq<string>, code: string)
    ensures Window(Window(codes) + [code]) == Window(codes + [code])
  {
    if |codes| > |KonamiSequence| {
      WindowPushFull(codes, code);
    }
  }

  lemma {:induction false} WindowPushFull(codes: seq<string>, code: string)
    requires |codes| > |KonamiSequence|
    ensures Window(Window(codes) + [code]) == Window(codes + [code])
  {
    var n := |KonamiSequence|;
    var w := codes[|codes| - n..];
    assert Window(codes) == w;
    assert Window(w + [code]) == (w + [code])[1..];
    assert (w + [code])[1..] == (codes + [code])[|codes| + 1 - n..];
  }

  /** One code over ten: dropping the oldest gives the window. */
  lemma {:induction false} DropOldest(codes: seq<string>)
    requires |codes| <= |KonamiSequence| + 1
    ensures (if |codes| > |KonamiSequence| then codes[1..] else codes) == Window(codes)
  {
  }

  /** The page object. `sinceReset` holds every key code since the page
      loaded or the last activation; the buffer is its last ten codes, and
      `clickCount` counts clicks modulo five. */
  class Error404Page {
    var clickCount: nat
    var konamiCode: seq<string>
    /** The hue-rotate filter on the body. */
    var colorsRotated: bool
    ghost var sinceReset: seq<string>
    ghost var totalClicks: nat

    ghost predicate Valid()
      reads this
    {
      && konamiCode == Window(sinceReset)
      && clickCount == totalClicks % 5
    }

    constructor ()
      ensures Valid() && clickCount == 0 && konamiCode == [] && !colorsRotated
    {
      clickCount := 0;
      konamiCode := [];
      colorsRotated := false;
      sinceReset := [];
      totalClicks := 0;
    }

    /** A click on the basketball: the fifth click in a row raises the
        easter-egg alert and restarts the count. */
    method HandleBasketballClick() returns (alerted: bool)
      requires Valid()
      modifies this`clickCount, this`totalClicks
      ensures Valid()
      ensures totalClicks == old(totalClicks) + 1
      ensures alerted <==> totalClicks % 5 == 0
      ensures clickCount <= 4
    {
      clickCount := clickCount + 1;
      totalClicks := totalClicks + 1;
      alerted := false;
      if clickCount == 5 {
        alerted := true;
        clickCount := 0;
      }
    }

    /** konamiCode.every((code, index) => code === konamiSequence[index]),
        after the length test. */
    method MatchesSequence() returns (matches: bool)
      requires |konamiCode| == |KonamiSequence|
      ensures matches <==> konamiCode == KonamiSequence
    {
      matches := true;
      var i := 0;
      while i < |konamiCode|
        invariant 0 <= i <= |konamiCode|
        invariant matches <==> konamiCode[..i] == KonamiSequence[..i]
      {
        if konamiCode[i] != KonamiSequence[i] {
          matches := false;
        }
        assert konamiCode[..i + 1] == konamiCode[..i] + [konamiCode[i]];
        assert KonamiSequence[..i + 1] == KonamiSequence[..i] + [KonamiSequence[i]];
        i := i + 1;
      }
      assert konamiCode[..i] == konamiCode;
      assert KonamiSequence[..i] == KonamiSequence;
    }

    /** A keydown: push the code, drop the oldest beyond ten, and activate
        (rotating the colours and emptying the buffer) exactly when the
        buffer spells the sequence. */
    method HandleKonamiCode(code: string) returns (activated: bool)
      requires Valid()
      modifies this`konamiCode, this`sinceReset, this`colorsRotated
      ensures Valid()
      ensures activated <==> Window(old(sinceReset) + [code]) == KonamiSequence
      ensures activated ==> konamiCode == [] && sinceReset == [] && colorsRotated
      ensures !activated ==> sinceReset == old(sinceReset) + [code] && colorsRotated == old(colorsRotated)
      ensures |konamiCode| <= |KonamiSequence|
    {
      ghost var pushed := konamiCode + [code];
      konamiCode := konamiCode + [code];
      sinceReset := sinceReset + [code];
      if |konamiCode| > |KonamiSequence| {
        konamiCode := konamiCode[1..];
      }
      DropOldest(pushed);
      WindowPush(old(sinceReset), code);
      assert konamiCode == Window(sinceReset);
      activated := false;
      if |konamiCode| == |KonamiSequence| {
        activated := MatchesSequence();
      }
      if activated {
        colorsRotated := true;
        konamiCode := [];
        sinceReset := [];
      }
    }
  }

  /** Typing the sequence activates on its last key and not before,
      whatever was typed earlier: 'KeyA' occurs only at the end of the
      sequence, so no proper prefix of it can end a matching window. */
  lemma {:induction false} ActivatesOnlyOnLastKey(history: seq<string>, k: nat)
    requires 1 <= k <= |KonamiSequence|
    ensures Window(history + KonamiSequence[..k]) == KonamiSequence <==> k == |KonamiSequence|
  {
    var typed := history + KonamiSequence[..k];
    if k == |KonamiSequence| {
      assert typed[|typed| - |KonamiSequence|..] == KonamiSequence;
    } else {
      assert Window(typed)[|Window(typed)| - 1] == KonamiSequence[k - 1];
    }
  }

  /** performSearch: the navigation target for the search box, absent when
      the page has no search box or the trimmed term is empty. */
  function SearchTarget(input: Option<string>): (url: Option<string>)
    ensures url.Some? <==> input.Some? && Trim(input.value, JsWhitespace) != []
    ensures url.Some? ==> url.value == "/games?search=" + EncodeURIComponent(Trim(input.value, JsWhitespace))
  {
    var term := if input.Some? then Trim(input.value, JsWhitespace) else "";
    if term != [] then Some("/games?search=" + EncodeURIComponent(term)) else None
  }

  /** The target carries the term as exactly one query parameter whose
      value decodes to the trimmed term's UTF-8 bytes. */
  lemma {:induction false} SearchTargetCarriesTerm(input: string)
    requires Trim(input, JsWhitespace) != []
    ensures var url := SearchTarget(Some(input)).value;
      && StartsWith(url, "/games?search=")
      && '&' !in url[14..] && '#' !in url[14..]
      && PercentDecode(url[14..]) == Utf8String(Trim(input, JsWhitespace))
  {
    var term := Trim(input, JsWhitespace);
    var url := SearchTarget(Some(input)).value;
    assert url[14..] == EncodeURIComponent(term);
    EncodedStaysOneParameter(term);
    DecodeEncode(term);
  }
}
