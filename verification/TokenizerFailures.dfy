/** Where the tokenizer fails an assertion instead of giving a token or reporting an error
    (src/compiler/tokenizer.c:33-53, 255-283, 345-347): at character literals, and exactly at those texts
    that run into the end of the source behind a backslash, because their error is to be reported one
    character past the end. */
module TokenizerFailures {
  import opened Options
  import opened Tokens
  import opened TokenTables
  import opened NumLiteral
  import opened Tokenizer
  import opened TokenizerRoundTrip

  /** A quote, a text without a closing quote, and as the last character a backslash that is not escaped. */
  predicate EndsEscaping(s: string) {
    |s| > 1 && s[0] == '"' && s[|s| - 1] == '\\' && ClosedText(s[1..|s| - 1])
  }

  lemma {:induction false} StopsBehind(s: string, i: nat)
    requires i < |s|
    ensures StringStop(s, i) == |s| <==> 1 + i < |s| && s[|s| - 1] == '\\' && ClosedText(s[1 + i..|s| - 1])
    decreases |s| - i
  {
    if i < |s| - 1 {
      var text := s[1 + i..|s| - 1];
      assert text != "" ==> text[0] == s[1 + i];
      if s[1 + i] == '\\' && i + 2 < |s| {
        StopsBehind(s, i + 2);
        assert |text| > 1 ==> text[2..] == s[3 + i..|s| - 1];
      } else if s[1 + i] != '\\' && s[1 + i] != '"' {
        StopsBehind(s, i + 1);
        assert text != "" ==> text[1..] == s[2 + i..|s| - 1];
      }
    }
  }

  lemma {:induction false} FromTextFails(s: string)
    requires s != "" && s[0] == '"'
    ensures FromText(s) == Failed <==> EndsEscaping(s)
  {
    StopsBehind(s, 0);
  }

  /** The scan of a token fails if and only if it starts with a single quote or is such a text. */
  lemma {:induction false} RecogniseFails(s: string, previous: TokenType)
    ensures Recognise(s, previous).Failed? <==> (s != "" && s[0] == '\'') || EndsEscaping(s)
  {
    hide FirstKeyword, FirstSymbol, Spelling, Parse, IdentifierEnd, FromText, EndsInteger, EndsNumeric;
    if s != "" && (s[0] == '\'' || s[0] == '"') {
      NoKeywordAtOther(s);
      NoSymbolAtOther(s);
      if s[0] == '"' {
        FromTextFails(s);
      }
    }
  }

  /** The start of the token at which tokenizing from `index` on fails. */
  function FailurePlace(source: string, index: nat, previous: TokenType): (r: Option<nat>)
    requires index <= |source|
    ensures r.Some? ==> index <= r.value <= |source|
    decreases |source| - index
  {
    var start := SkipSpaces(source, index);
    RecogniseFits(source[start..], previous);
    match Recognise(source[start..], previous)
    case Nothing(_) => None
    case Failed => Some(start)
    case Found(t, length) => FailurePlace(source, start + length, t.tag)
  }

  predicate FailsThere(source: string, at: nat) {
    at < |source| && (source[at] == '\'' || EndsEscaping(source[at..]))
  }

  lemma FailsHere(source: string, start: nat, previous: TokenType)
    requires start <= |source|
    ensures Recognise(source[start..], previous).Failed? <==> FailsThere(source, start)
  {
    hide Recognise, ClosedText;
    RecogniseFails(source[start..], previous);
  }

  lemma {:induction false} PlaceFails(source: string, index: nat, previous: TokenType)
    requires index <= |source|
    ensures var place := FailurePlace(source, index, previous); place.Some? ==> FailsThere(source, place.value)
    decreases |source| - index
  {
    hide Recognise, SkipSpaces, FailsThere;
    var start := SkipSpaces(source, index);
    RecogniseFits(source[start..], previous);
    FailsHere(source, start, previous);
    match Recognise(source[start..], previous)
    case Nothing(_) =>
    case Failed =>
    case Found(t, length) => PlaceFails(source, start + length, t.tag);
  }

  lemma PlaceStep(source: string, index: nat, previous: TokenType)
    requires index <= |source|
    ensures var start := SkipSpaces(source, index); var place := FailurePlace(source, index, previous);
            match Recognise(source[start..], previous)
            case Nothing(_) => place == None
            case Failed => place == Some(start)
            case Found(t, length) => start + length <= |source| && place == FailurePlace(source, start + length, t.tag)
  {
    hide Recognise, SkipSpaces;
    RecogniseFits(source[SkipSpaces(source, index)..], previous);
  }

  /** A source fails to tokenize if and only if its tokens lead to a character literal, or to a text that runs
      to the end of the source. */
  lemma {:induction false} TokenizeFails(source: string, index: nat, previous: TokenType)
    requires index <= |source|
    ensures Tokenize(source, index, previous) == None <==> FailurePlace(source, index, previous).Some?
    ensures var place := FailurePlace(source, index, previous); place.Some? ==> FailsThere(source, place.value)
    decreases |source| - index
  {
    hide Recognise, SkipSpaces, FailsThere, Tokenize, FailurePlace;
    PlaceFails(source, index, previous);
    PlaceStep(source, index, previous);
    FollowingStep([], source, index, previous);
    FollowingNone(Tokenize(source, index, previous));
    var start := SkipSpaces(source, index);
    RecogniseFits(source[start..], previous);
    match Recognise(source[start..], previous)
    case Nothing(_) =>
    case Failed =>
    case Found(t, length) => TokenizeFails(source, start + length, t.tag);
  }

  lemma FailsNowhere(source: string, at: nat)
    requires '\'' !in source && (source == "" || source[|source| - 1] != '\\')
    ensures !FailsThere(source, at)
  {
    hide ClosedText;
    assert at < |source| ==> source[at..][|source| - at - 1] == source[|source| - 1];
  }

  /** So a source without a single quote in it that does not end with a backslash gives tokens. */
  lemma {:induction false} PlainSourceTokenizes(source: string)
    requires '\'' !in source && (source == "" || source[|source| - 1] != '\\')
    ensures Tokenize(source, 0, TokenNone).Some?
  {
    hide Tokenize, FailurePlace, FailsThere;
    TokenizeFails(source, 0, TokenNone);
    forall at: nat ensures !FailsThere(source, at) {
      FailsNowhere(source, at);
    }
  }

  /** A quote, a letter and a backslash. */
  lemma {:induction false} OpenEscape(source: string)
    requires source == "\"a\\"
    ensures Recognise(source, TokenNone) == Failed && Tokenize(source, 0, TokenNone) == None
  {
    assert source[1..2] == "a" && "a"[1..] == "" && source[0..] == source;
    RecogniseFails(source, TokenNone);
  }
}
