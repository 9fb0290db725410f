/**
 * The chatbot's text normaliser: every whitespace character is removed, so that "일정 탭에서
 * 오류" and "일정탭에서오류" index and filter alike.
 */
module ChatText {
  import opened Wrappers
  import opened PyStr

  /** `normalize_korean_text(text)`: `None` and `""` give `""`, anything else
      `"".join(text.split())`. */
  function NormalizeKoreanText(text: Option<string>): (r: string)
    ensures text == None || text == Some("") ==> r == ""
    ensures NoSpace(r)
    ensures text.Some? ==> |r| <= |text.value| && (r == text.value <==> NoSpace(text.value))
  {
    match text
    case None => ""
    case Some(s) =>
      if s == [] then ""
      else
        JoinEmptySplit(s);
        RemoveSpacesShorter(s);
        Join("", Split(s))
  }

  lemma {:induction false} RemoveSpacesShorter(s: string)
    ensures |RemoveSpaces(s)| <= |s|
    ensures |RemoveSpaces(s)| == |s| <==> NoSpace(s)
    decreases |s|
  {
    if s != [] {
      RemoveSpacesShorter(s[1..]);
      if NoSpace(s[1..]) && !IsSpace(s[0]) {
        assert forall i :: 1 <= i < |s| ==> s[i] == s[1..][i - 1];
      }
    }
  }

  /** The result is the input with exactly its whitespace characters removed, the others kept
      in order: it holds no whitespace, is never longer than the input and is the input
      itself exactly when the input holds no whitespace. Missing and empty input give `""`. */
  lemma NormalizeRemovesWhitespace(text: Option<string>)
    ensures text == None || text == Some("") ==> NormalizeKoreanText(text) == ""
    ensures text.Some? ==> NormalizeKoreanText(text) == RemoveSpaces(text.value)
    ensures NoSpace(NormalizeKoreanText(text))
    ensures text.Some? ==> |NormalizeKoreanText(text)| <= |text.value|
    ensures text.Some? ==> (NormalizeKoreanText(text) == text.value <==> NoSpace(text.value))
  {
    if text.Some? {
      JoinEmptySplit(text.value);
      RemoveSpacesShorter(text.value);
    }
  }

  /** Normalising twice is normalising once. */
  lemma NormalizeIdempotent(text: Option<string>)
    ensures NormalizeKoreanText(Some(NormalizeKoreanText(text))) == NormalizeKoreanText(text)
  {
    NormalizeRemovesWhitespace(text);
    var r := NormalizeKoreanText(text);
    if r != [] {
      JoinEmptySplit(r);
      RemoveSpacesOfNoSpace(r);
    }
  }
}
