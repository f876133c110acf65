/**
 `sme_archive_postprocessing.py`: normalise the text fields of an extracted
 record and add a lemmatised copy of its body. Sentence and token
 segmentation (polyglot, which also runs pycld2's language detection),
 `str.lower`, the `\d` character class and the Slovak lemmatiser are
 foreign and are parameters (`Tools`); the record read from disk is an
 input, and `dump` is the JSON text `json.dump` writes.
 */
module Postprocessing {
  import opened Python
  import opened Utils

  /* ---------------------------------------------------------------------- */
  /* Sequence helpers                                                        */
  /* ---------------------------------------------------------------------- */

  /** The elements of `xs` that satisfy `p`, in order. */
  function Keep<T(!new)>(xs: seq<T>, p: T -> bool): (r: seq<T>)
    ensures |r| <= |xs|
    ensures forall x :: x in r ==> x in xs && p(x)
  {
    if |xs| == 0 then [] else (if p(xs[0]) then [xs[0]] else []) + Keep(xs[1..], p)
  }

  lemma {:induction false} KeepAppend<T(!new)>(a: seq<T>, b: seq<T>, p: T -> bool)
    ensures Keep(a + b, p) == Keep(a, p) + Keep(b, p)
  {
    if |a| == 0 {
      assert a + b == b;
    } else {
      assert (a + b)[0] == a[0];
      assert (a + b)[1..] == a[1..] + b;
      KeepAppend(a[1..], b, p);
    }
  }

  /** `f` applied to every element, in order. */
  function Map<T, U>(xs: seq<T>, f: T -> U): (r: seq<U>)
    ensures |r| == |xs|
    ensures forall k :: 0 <= k < |xs| ==> r[k] == f(xs[k])
  {
    if |xs| == 0 then [] else [f(xs[0])] + Map(xs[1..], f)
  }

  lemma {:induction false} MapAppend<T, U>(a: seq<T>, b: seq<T>, f: T -> U)
    ensures Map(a + b, f) == Map(a, f) + Map(b, f)
  {
  }

  /* ---------------------------------------------------------------------- */
  /* _remove_punctuation, _remove_numbers                                    */
  /* ---------------------------------------------------------------------- */

  /** The character class of `_remove_punctuation`: thirty marks, ASCII
      punctuation and the acute accent, but not `-`, `_` or the backslash. */
  const Punctuation: set<char> := {
    '!', '"', '´', '#', '$', '%', '&', '\'', '(', ')', '*', '+', ',', '.', '/',
    ':', ';', '<', '=', '>', '?', '@', '[', ']', '^', '`', '{', '|', '}', '~' }

  /** `s` with every character `drop` selects deleted. */
  function Delete(s: string, drop: char -> bool): (r: string)
    ensures |r| <= |s|
    ensures forall c :: c in r ==> c in s && !drop(c)
  {
    Keep(s, c => !drop(c))
  }

  function IsPunctuation(c: char): bool {
    c in Punctuation
  }

  /** `_remove_punctuation(content)`. */
  function RemovePunctuation(s: string): (r: string)
    ensures forall c :: c in r ==> c in s && !IsPunctuation(c)
  {
    Delete(s, IsPunctuation)
  }

  /** `_remove_numbers(content)`: every run of `\d` characters, that is every
      such character, is deleted. */
  function RemoveNumbers(s: string, isDigit: char -> bool): (r: string)
    ensures forall c :: c in r ==> c in s && !isDigit(c)
  {
    Delete(s, isDigit)
  }

  /** The three characters next to the class that it leaves alone. */
  lemma PunctuationClass()
    ensures !IsPunctuation('-') && !IsPunctuation('_') && !IsPunctuation('\\')
    ensures IsPunctuation('´') && IsPunctuation('\'') && IsPunctuation(']')
  {
  }

  /** Deletion works character by character: it distributes over
      concatenation, a single character is kept or dropped on its own, and
      text with nothing to delete comes back unchanged. Together these fix
      the result: every kept character, in its original order. */
  lemma DeleteIsCharacterwise(a: string, b: string, c: char, drop: char -> bool)
    ensures Delete(a + b, drop) == Delete(a, drop) + Delete(b, drop)
    ensures Delete([c], drop) == if drop(c) then [] else [c]
    ensures (forall k :: 0 <= k < |a| ==> !drop(a[k])) ==> Delete(a, drop) == a
  {
    KeepAppend(a, b, c => !drop(c));
    if forall k :: 0 <= k < |a| ==> !drop(a[k]) {
      NothingToDelete(a, drop);
    }
  }

  lemma {:induction false} NothingToDelete(s: string, drop: char -> bool)
    requires forall k :: 0 <= k < |s| ==> !drop(s[k])
    ensures Delete(s, drop) == s
  {
    if |s| > 0 {
      NothingToDelete(s[1..], drop);
    }
  }

  /** The four-character case: every character is one that is kept. */
  lemma KeepsFour(a: char, b: char, c: char, d: char, drop: char -> bool)
    requires !drop(a) && !drop(b) && !drop(c) && !drop(d)
    ensures Delete([a, b, c, d], drop) == [a, b, c, d]
  {
    var s := [a, b, c, d];
    forall k | 0 <= k < 4
      ensures !drop(s[k])
    {
      assert s[k] in {a, b, c, d};
    }
    NothingToDelete(s, drop);
  }

  /** The three-character case. */
  lemma KeepsThree(a: char, b: char, c: char, drop: char -> bool)
    requires !drop(a) && !drop(b) && !drop(c)
    ensures Delete([a, b, c], drop) == [a, b, c]
  {
    var s := [a, b, c];
    forall k | 0 <= k < 3
      ensures !drop(s[k])
    {
      assert s[k] in {a, b, c};
    }
    NothingToDelete(s, drop);
  }

  /** Examples of the two deletions: a hyphen is kept, an exclamation mark
      is not; digits go. */
  lemma PunctuationExample(s: string)
    requires s == "a-b!"
    ensures RemovePunctuation(s) == "a-b"
  {
    assert s == s[..3] + [s[3]];
    DeleteIsCharacterwise(s[..3], [s[3]], s[3], IsPunctuation);
    HyphenKept(s[..3]);
  }

  lemma HyphenKept(s: string)
    requires s == "a-b"
    ensures RemovePunctuation(s) == s
  {
    KeepsThree(s[0], s[1], s[2], IsPunctuation);
    assert s == [s[0], s[1], s[2]];
  }

  lemma NumbersExample(n: string, isDigit: char -> bool)
    requires n == "x19"
    requires forall c :: isDigit(c) <==> '0' <= c <= '9'
    ensures RemoveNumbers(n, isDigit) == "x"
  {
    assert n == [n[0]] + [n[1]] + [n[2]];
    DeleteIsCharacterwise([n[0]] + [n[1]], [n[2]], n[2], isDigit);
    DeleteIsCharacterwise([n[0]], [n[1]], n[1], isDigit);
    DeleteIsCharacterwise([n[0]], [], n[0], isDigit);
  }

  /* ---------------------------------------------------------------------- */
  /* _preprocess                                                             */
  /* ---------------------------------------------------------------------- */

  /** The foreign parts: polyglot's segmentation of a field into sentences
      of tokens (or the exception it raises, such as `pycld2.error`),
      `str.lower`, the `\d` class and `lemmsk.lemmatize`. */
  datatype Tools = Tools(
    segment: Value -> Result<seq<seq<string>>, Exc>,
    lower: string -> string,
    isDigit: char -> bool,
    lemmatize: string -> string)

  /** The five list comprehensions of `_preprocess`, on one sentence, as
      written: punctuation removed (tokens that become empty dropped),
      lowercased, digits removed, stop words dropped, tokens of one
      character or none dropped. */
  function SentenceTokens(sentence: seq<string>, tools: Tools, stop: seq<string>): seq<string> {
    var stripped := Map(Keep(sentence, tok => RemovePunctuation(tok) != ""), RemovePunctuation);
    var lowered := Map(stripped, tools.lower);
    var digitless := Map(lowered, tok => RemoveNumbers(tok, tools.isDigit));
    var content := Keep(digitless, tok => tok !in stop);
    Keep(content, tok => |tok| > 1)
  }

  /** What every emitted token satisfies: two characters or more, no
      digit, not a stop word. */
  predicate Clean(w: string, tools: Tools, stop: seq<string>) {
    |w| >= 2 && w !in stop && forall k :: 0 <= k < |w| ==> !tools.isDigit(w[k])
  }

  /** The same steps for a single token: the token it becomes, if it stays. */
  function NormalizeToken(tok: string, tools: Tools, stop: seq<string>): (r: Option<string>)
    ensures r.Some? ==> Clean(r.value, tools, stop)
  {
    var stripped := RemovePunctuation(tok);
    if stripped == "" then None
    else
      var w := RemoveNumbers(tools.lower(stripped), tools.isDigit);
      if w in stop || |w| <= 1 then None else Some(w)
  }

  function AsSeq(o: Option<string>): seq<string> {
    match o
    case Some(w) => [w]
    case None => []
  }

  /** Token by token: what survives of each token, in order. */
  function Normalized(tokens: seq<string>, tools: Tools, stop: seq<string>): (r: seq<string>)
    ensures forall w :: w in r ==> Clean(w, tools, stop)
  {
    if |tokens| == 0 then [] else AsSeq(NormalizeToken(tokens[0], tools, stop)) + Normalized(tokens[1..], tools, stop)
  }

  lemma {:induction false} NormalizedAppend(a: seq<string>, b: seq<string>, tools: Tools, stop: seq<string>)
    ensures Normalized(a + b, tools, stop) == Normalized(a, tools, stop) + Normalized(b, tools, stop)
  {
    if |a| == 0 {
      assert a + b == b;
    } else {
      assert (a + b)[0] == a[0];
      assert (a + b)[1..] == a[1..] + b;
      NormalizedAppend(a[1..], b, tools, stop);
    }
  }

  lemma SentenceTokensAppend(a: seq<string>, b: seq<string>, tools: Tools, stop: seq<string>)
    ensures SentenceTokens(a + b, tools, stop) == SentenceTokens(a, tools, stop) + SentenceTokens(b, tools, stop)
  {
    var nonEmpty := tok => RemovePunctuation(tok) != "";
    var digitless := tok => RemoveNumbers(tok, tools.isDigit);
    var content := (tok: string) => tok !in stop;
    var long := (tok: string) => |tok| > 1;
    KeepAppend(a, b, nonEmpty);
    var sa := Map(Keep(a, nonEmpty), RemovePunctuation);
    var sb := Map(Keep(b, nonEmpty), RemovePunctuation);
    MapAppend(Keep(a, nonEmpty), Keep(b, nonEmpty), RemovePunctuation);
    MapAppend(sa, sb, tools.lower);
    var la := Map(sa, tools.lower);
    var lb := Map(sb, tools.lower);
    MapAppend(la, lb, digitless);
    var da := Map(la, digitless);
    var db := Map(lb, digitless);
    KeepAppend(da, db, content);
    KeepAppend(Keep(da, content), Keep(db, content), long);
  }

  lemma SentenceTokensOfOne(tok: string, tools: Tools, stop: seq<string>)
    ensures SentenceTokens([tok], tools, stop) == AsSeq(NormalizeToken(tok, tools, stop))
  {
    assert [tok][1..] == [];
  }

  /** The five passes over a sentence keep exactly the tokens that survive
      on their own, each transformed alone, in their original order. */
  lemma {:induction false} PassesAreTokenwise(sentence: seq<string>, tools: Tools, stop: seq<string>)
    ensures SentenceTokens(sentence, tools, stop) == Normalized(sentence, tools, stop)
  {
    if |sentence| > 0 {
      assert sentence == [sentence[0]] + sentence[1..];
      SentenceTokensAppend([sentence[0]], sentence[1..], tools, stop);
      SentenceTokensOfOne(sentence[0], tools, stop);
      PassesAreTokenwise(sentence[1..], tools, stop);
    } else {
      assert SentenceTokens(sentence, tools, stop) == [];
    }
  }

  /** `res` after the loop over the sentences: each sentence's tokens
      appended in turn. */
  function Tokens(sentences: seq<seq<string>>, tools: Tools, stop: seq<string>): seq<string> {
    ToFlatList(seq(|sentences|, i requires 0 <= i < |sentences| => SentenceTokens(sentences[i], tools, stop)))
  }

  lemma TokensCons(sentences: seq<seq<string>>, tools: Tools, stop: seq<string>)
    requires |sentences| > 0
    ensures Tokens(sentences, tools, stop) == SentenceTokens(sentences[0], tools, stop) + Tokens(sentences[1..], tools, stop)
  {
    var parts := seq(|sentences|, i requires 0 <= i < |sentences| => SentenceTokens(sentences[i], tools, stop));
    assert parts[1..] == seq(|sentences| - 1, i requires 0 <= i < |sentences| - 1 => SentenceTokens(sentences[1..][i], tools, stop));
  }

  /** The tokens of all sentences are those of the sentences' tokens run
      together: sentence boundaries do not matter. */
  lemma {:induction false} TokensIgnoreSentences(sentences: seq<seq<string>>, tools: Tools, stop: seq<string>)
    ensures Tokens(sentences, tools, stop) == Normalized(ToFlatList(sentences), tools, stop)
  {
    if |sentences| > 0 {
      TokensCons(sentences, tools, stop);
      TokensIgnoreSentences(sentences[1..], tools, stop);
      PassesAreTokenwise(sentences[0], tools, stop);
      NormalizedAppend(sentences[0], ToFlatList(sentences[1..]), tools, stop);
    } else {
      assert Tokens(sentences, tools, stop) == [];
    }
  }

  /** `_preprocess(file)`: the surviving tokens joined by single spaces. */
  function Preprocess(v: Value, tools: Tools, stop: seq<string>): (r: Result<string, Exc>)
    ensures r.Failure? <==> tools.segment(v).Failure?
  {
    var sentences :- tools.segment(v);
    Success(Join(" ", Tokens(sentences, tools, stop)))
  }

  /** Every emitted token has at least two characters, no digit, and is not
      a stop word (checked after the digits are gone); the output is the
      surviving tokens of every sentence, in order, one space apart. */
  lemma PreprocessedTokens(v: Value, tools: Tools, stop: seq<string>)
    requires tools.segment(v).Success?
    ensures var toks := Normalized(ToFlatList(tools.segment(v).value), tools, stop);
      && Preprocess(v, tools, stop) == Success(Join(" ", toks))
      && forall w :: w in toks ==> Clean(w, tools, stop)
  {
    TokensIgnoreSentences(tools.segment(v).value, tools, stop);
  }

  /** The worked example: `Ahoj , svet 123 !` with the stop word `svet`
      leaves `ahoj`. */
  lemma PreprocessExample(v: Value, tools: Tools, sentence: seq<string>, stop: seq<string>)
    requires sentence == ["Ahoj", ",", "svet", "123", "!"] && stop == ["svet"]
    requires tools.segment(v) == Success([sentence])
    requires tools.lower("Ahoj") == "ahoj" && tools.lower("svet") == "svet" && tools.lower("123") == "123"
    requires forall c :: tools.isDigit(c) <==> '0' <= c <= '9'
    ensures Preprocess(v, tools, stop) == Success("ahoj")
  {
    assert ToFlatList([sentence]) == sentence;
    TokensIgnoreSentences([sentence], tools, stop);
    ExampleSentence(sentence, tools, stop);
    assert Join(" ", ["ahoj"]) == "ahoj";
  }

  lemma ExampleSentence(sentence: seq<string>, tools: Tools, stop: seq<string>)
    requires sentence == ["Ahoj", ",", "svet", "123", "!"] && stop == ["svet"]
    requires tools.lower("Ahoj") == "ahoj" && tools.lower("svet") == "svet" && tools.lower("123") == "123"
    requires forall c :: tools.isDigit(c) <==> '0' <= c <= '9'
    ensures Normalized(sentence, tools, stop) == ["ahoj"]
  {
    NormalizeAhoj(sentence[0], tools, stop);
    ExampleTail(sentence[1..], tools, stop);
  }

  lemma ExampleTail(rest: seq<string>, tools: Tools, stop: seq<string>)
    requires rest == [",", "svet", "123", "!"] && stop == ["svet"]
    requires tools.lower("svet") == "svet" && tools.lower("123") == "123"
    requires forall c :: tools.isDigit(c) <==> '0' <= c <= '9'
    ensures Normalized(rest, tools, stop) == []
  {
    NormalizeMark(rest[0], tools, stop);
    NormalizeSvet(rest[1], tools, stop);
    ExampleLastTwo(rest[2..], tools, stop);
    assert Normalized(rest[1..], tools, stop) == [] by {
      assert rest[1..][1..] == rest[2..];
    }
  }

  lemma ExampleLastTwo(rest: seq<string>, tools: Tools, stop: seq<string>)
    requires rest == ["123", "!"] && stop == ["svet"] && tools.lower("123") == "123"
    requires forall c :: tools.isDigit(c) <==> '0' <= c <= '9'
    ensures Normalized(rest, tools, stop) == []
  {
    NormalizeNumber(rest[0], tools, stop);
    NormalizeMark(rest[1], tools, stop);
    assert Normalized(rest[1..], tools, stop) == [] by {
      assert rest[1..][1..] == [];
    }
  }

  /** The tokens of the worked example, one by one: `Ahoj` becomes `ahoj`,
      the stop word and the number vanish, and so does a lone mark. */
  lemma NormalizeAhoj(tok: string, tools: Tools, stop: seq<string>)
    requires tok == "Ahoj" && stop == ["svet"] && tools.lower("Ahoj") == "ahoj"
    requires forall c :: tools.isDigit(c) <==> '0' <= c <= '9'
    ensures NormalizeToken(tok, tools, stop) == Some("ahoj")
  {
    WordKept(tok, tools.lower(tok), tools, stop);
  }

  /** `Ahoj` spelt out character by character, lowercased to `ahoj`. */
  lemma WordKept(tok: string, w: string, tools: Tools, stop: seq<string>)
    requires |tok| == 4 && tok[0] == 'A' && tok[1] == 'h' && tok[2] == 'o' && tok[3] == 'j'
    requires |w| == 4 && w[0] == 'a' && w[1] == 'h' && w[2] == 'o' && w[3] == 'j'
    requires w == tools.lower(tok) && |stop| == 1 && |stop[0]| > 0 && stop[0][0] == 's'
    requires forall c :: tools.isDigit(c) <==> '0' <= c <= '9'
    ensures NormalizeToken(tok, tools, stop) == Some(w)
  {
    NoMarkIn(tok);
    NoDigitIn(w, tools.isDigit);
    assert w !in stop by {
      assert w[0] != stop[0][0];
    }
    TokenKept(tok, tools, stop);
  }

  /** A token with no mark whose lowercase form has no digit, is no stop
      word and is longer than one character becomes that lowercase form. */
  lemma TokenKept(tok: string, tools: Tools, stop: seq<string>)
    requires tok != "" && RemovePunctuation(tok) == tok
    requires RemoveNumbers(tools.lower(tok), tools.isDigit) == tools.lower(tok)
    requires tools.lower(tok) !in stop && |tools.lower(tok)| > 1
    ensures NormalizeToken(tok, tools, stop) == Some(tools.lower(tok))
  {
  }

  lemma NoMarkIn(tok: string)
    requires |tok| == 4 && tok[0] == 'A' && tok[1] == 'h' && tok[2] == 'o' && tok[3] == 'j'
    ensures RemovePunctuation(tok) == tok
  {
    KeepsFour(tok[0], tok[1], tok[2], tok[3], IsPunctuation);
    assert tok == [tok[0], tok[1], tok[2], tok[3]];
  }

  lemma NoDigitIn(w: string, isDigit: char -> bool)
    requires |w| == 4 && w[0] == 'a' && w[1] == 'h' && w[2] == 'o' && w[3] == 'j'
    requires forall c :: isDigit(c) <==> '0' <= c <= '9'
    ensures RemoveNumbers(w, isDigit) == w
  {
    KeepsFour(w[0], w[1], w[2], w[3], isDigit);
    assert w == [w[0], w[1], w[2], w[3]];
  }

  lemma NormalizeSvet(tok: string, tools: Tools, stop: seq<string>)
    requires tok == "svet" && stop == ["svet"] && tools.lower("svet") == "svet"
    requires forall c :: tools.isDigit(c) <==> '0' <= c <= '9'
    ensures NormalizeToken(tok, tools, stop) == None
  {
    KeepsFour(tok[0], tok[1], tok[2], tok[3], IsPunctuation);
    KeepsFour(tok[0], tok[1], tok[2], tok[3], tools.isDigit);
    assert tok == [tok[0], tok[1], tok[2], tok[3]];
  }

  lemma NormalizeNumber(tok: string, tools: Tools, stop: seq<string>)
    requires tok == "123" && tools.lower("123") == "123"
    requires forall c :: tools.isDigit(c) <==> '0' <= c <= '9'
    ensures NormalizeToken(tok, tools, stop) == None
  {
    KeepsThree(tok[0], tok[1], tok[2], IsPunctuation);
    assert tok == [tok[0], tok[1], tok[2]];
    assert RemoveNumbers(tok, tools.isDigit) == "" by {
      assert forall c :: c in RemoveNumbers(tok, tools.isDigit) ==> false;
    }
  }

  lemma NormalizeMark(tok: string, tools: Tools, stop: seq<string>)
    requires |tok| == 1 && IsPunctuation(tok[0])
    ensures NormalizeToken(tok, tools, stop) == None
  {
    assert tok == [tok[0]];
    DeleteIsCharacterwise([], [], tok[0], IsPunctuation);
  }

  /** No punctuation in `s`. */
  predicate PunctuationFree(s: string) {
    forall k :: 0 <= k < |s| ==> !IsPunctuation(s[k])
  }

  /** Lowercasing punctuation-free text gives punctuation-free text. */
  ghost predicate LowerAddsNoPunctuation(lower: string -> string) {
    forall s {:trigger lower(s)} :: PunctuationFree(s) ==> PunctuationFree(lower(s))
  }

  /** A surviving token passes through the steps again unchanged, provided
      lowercasing leaves it as it is: `_lemmatize` runs `_preprocess` a
      second time on text that has already been through it. */
  lemma NormalizeTokenIdempotent(tok: string, tools: Tools, stop: seq<string>)
    requires LowerAddsNoPunctuation(tools.lower)
    requires NormalizeToken(tok, tools, stop).Some?
    requires tools.lower(NormalizeToken(tok, tools, stop).value) == NormalizeToken(tok, tools, stop).value
    ensures NormalizeToken(NormalizeToken(tok, tools, stop).value, tools, stop) == NormalizeToken(tok, tools, stop)
  {
    var stripped := RemovePunctuation(tok);
    var lowered := tools.lower(stripped);
    var w := NormalizeToken(tok, tools, stop).value;
    assert PunctuationFree(stripped) by {
      forall k | 0 <= k < |stripped|
        ensures !IsPunctuation(stripped[k])
      {
        assert stripped[k] in stripped;
      }
    }
    assert PunctuationFree(lowered);
    assert PunctuationFree(w) by {
      forall k | 0 <= k < |w|
        ensures !IsPunctuation(w[k])
      {
        assert w[k] in w;
        assert w[k] in lowered;
      }
    }
    NothingToDelete(w, IsPunctuation);
    NothingToDelete(w, tools.isDigit);
  }

  /** Token lists that the token-by-token steps leave as they are. */
  lemma {:induction false} NormalizedIdempotent(tokens: seq<string>, tools: Tools, stop: seq<string>)
    requires LowerAddsNoPunctuation(tools.lower)
    requires forall w :: w in Normalized(tokens, tools, stop) ==> tools.lower(w) == w
    ensures Normalized(Normalized(tokens, tools, stop), tools, stop) == Normalized(tokens, tools, stop)
  {
    if |tokens| > 0 {
      var first := AsSeq(NormalizeToken(tokens[0], tools, stop));
      var rest := Normalized(tokens[1..], tools, stop);
      NormalizedIdempotent(tokens[1..], tools, stop);
      NormalizedAppend(first, rest, tools, stop);
      if NormalizeToken(tokens[0], tools, stop).Some? {
        NormalizeTokenIdempotent(tokens[0], tools, stop);
        assert first[1..] == [];
      }
    }
  }

  /** Preprocessing text that has already been preprocessed changes nothing,
      when the segmenter gives back the tokens that were joined (in any
      sentence division) and lowercasing leaves them as they are. */
  lemma ReprocessingIsStable(v: Value, tools: Tools, stop: seq<string>, again: seq<seq<string>>)
    requires LowerAddsNoPunctuation(tools.lower)
    requires Preprocess(v, tools, stop).Success?
    requires tools.segment(v).Success?
    requires forall w :: w in Normalized(ToFlatList(tools.segment(v).value), tools, stop) ==> tools.lower(w) == w
    requires tools.segment(VStr(Preprocess(v, tools, stop).value)) == Success(again)
    requires ToFlatList(again) == Normalized(ToFlatList(tools.segment(v).value), tools, stop)
    ensures Preprocess(VStr(Preprocess(v, tools, stop).value), tools, stop) == Preprocess(v, tools, stop)
  {
    var toks := ToFlatList(tools.segment(v).value);
    TokensIgnoreSentences(tools.segment(v).value, tools, stop);
    TokensIgnoreSentences(again, tools, stop);
    NormalizedIdempotent(toks, tools, stop);
  }

  /* ---------------------------------------------------------------------- */
  /* _lemmatize                                                              */
  /* ---------------------------------------------------------------------- */

  /** `_lemmatize(data)`: preprocess, split at single spaces, lemmatise
      each piece, join with single spaces. */
  function Lemmatize(v: Value, tools: Tools, stop: seq<string>): (r: Result<string, Exc>)
    ensures r.Failure? <==> Preprocess(v, tools, stop).Failure?
  {
    var sentences :- Preprocess(v, tools, stop);
    Success(Join(" ", Map(Split(sentences, ' '), tools.lemmatize)))
  }

  /** One lemma per surviving token, in order, when the tokens hold no
      space; when no token survives, the single empty piece is still
      lemmatised. */
  lemma LemmaPerToken(v: Value, tools: Tools, stop: seq<string>)
    requires tools.segment(v).Success?
    requires forall w :: w in Normalized(ToFlatList(tools.segment(v).value), tools, stop) ==> ' ' !in w
    ensures var toks := Normalized(ToFlatList(tools.segment(v).value), tools, stop);
      Lemmatize(v, tools, stop) == Success(
        if toks == [] then tools.lemmatize("") else Join(" ", Map(toks, tools.lemmatize)))
  {
    var toks := Normalized(ToFlatList(tools.segment(v).value), tools, stop);
    PreprocessedTokens(v, tools, stop);
    if toks == [] {
      assert Join(" ", toks) == "";
      assert Split("", ' ') == [""];
      assert Map([""], tools.lemmatize) == [tools.lemmatize("")];
      assert Join(" ", [tools.lemmatize("")]) == tools.lemmatize("");
    } else {
      forall k | 0 <= k < |toks|
        ensures ' ' !in toks[k]
      {
        assert toks[k] in toks;
      }
      SplitJoin(toks, ' ');
    }
  }

  /* ---------------------------------------------------------------------- */
  /* preprocess                                                              */
  /* ---------------------------------------------------------------------- */

  /** The new fields, applied by item assignment in the order of the
      source: `title`, `introduction`, `document`, then `document_lemma`,
      which lemmatises the already preprocessed document. */
  function TransformRecord(file: Value, tools: Tools, stop: seq<string>): (r: Result<Value, Exc>)
    ensures r.Success? ==> file.VDict? && r.value.VDict?
    ensures !file.VDict? ==> r == Failure(TypeError)
  {
    var title :- Subscript(file, "title");
    var t :- Preprocess(title, tools, stop);
    var withTitle := SetItem(file.fields, "title", VStr(t));
    var introduction :- Subscript(VDict(withTitle), "introduction");
    var i :- Preprocess(introduction, tools, stop);
    var withIntroduction := SetItem(withTitle, "introduction", VStr(i));
    var document :- Subscript(VDict(withIntroduction), "document");
    var d :- Preprocess(document, tools, stop);
    var withDocument := SetItem(withIntroduction, "document", VStr(d));
    var lemmas :- Lemmatize(VStr(d), tools, stop);
    Success(VDict(SetItem(withDocument, "document_lemma", VStr(lemmas))))
  }

  /** The fields `preprocess` sets. */
  predicate IsSetField(k: string) {
    k == "title" || k == "introduction" || k == "document" || k == "document_lemma"
  }

  /** A transformed record has the keys of the original, in order, plus
      `document_lemma` at the end when it was not there; every other item
      (`category`, `url`, ...) is unchanged; and the four set fields hold
      strings. A missing `title` is a `KeyError`. */
  lemma TransformedRecordShape(file: Value, tools: Tools, stop: seq<string>)
    ensures file.VDict? && "title" !in Keys(file.fields) ==> TransformRecord(file, tools, stop) == Failure(KeyError)
    ensures var r := TransformRecord(file, tools, stop);
      r.Success? ==>
        && Keys(r.value.fields) == Keys(file.fields) + (if "document_lemma" in Keys(file.fields) then [] else ["document_lemma"])
        && (forall k :: 0 <= k < |file.fields| && !IsSetField(file.fields[k].key) ==> r.value.fields[k] == file.fields[k])
        && (exists t :: Field("title", VStr(t)) in r.value.fields)
        && (exists l :: Field("document_lemma", VStr(l)) in r.value.fields)
  {
    var r := TransformRecord(file, tools, stop);
    if r.Success? {
      var t := Preprocess(Subscript(file, "title").value, tools, stop).value;
      var f1 := SetItem(file.fields, "title", VStr(t));
      var i := Preprocess(Subscript(VDict(f1), "introduction").value, tools, stop).value;
      var f2 := SetItem(f1, "introduction", VStr(i));
      var d := Preprocess(Subscript(VDict(f2), "document").value, tools, stop).value;
      var f3 := SetItem(f2, "document", VStr(d));
      var l := Lemmatize(VStr(d), tools, stop).value;
      assert r.value == VDict(SetFields(file.fields, VStr(t), VStr(i), VStr(d), VStr(l)));
      SetFieldsKeys(file.fields, VStr(t), VStr(i), VStr(d), VStr(l));
      SetFieldsHold(file.fields, VStr(t), VStr(i), VStr(d), VStr(l));
      SetFieldsKeepOthers(file.fields, VStr(t), VStr(i), VStr(d), VStr(l));
    }
  }

  /** What `preprocess` stores: `title`, `introduction` and `document` hold
      `_preprocess` of their values in the record read, and `document_lemma`
      holds `_lemmatize` of the new document. The record is transformed
      exactly when it holds the three fields and every call succeeds. */
  lemma TransformedRecordValues(file: Value, tools: Tools, stop: seq<string>)
    ensures var r := TransformRecord(file, tools, stop);
      var title := Subscript(file, "title");
      var introduction := Subscript(file, "introduction");
      var document := Subscript(file, "document");
      && (r.Success? <==>
          && title.Success? && introduction.Success? && document.Success?
          && Preprocess(title.value, tools, stop).Success?
          && Preprocess(introduction.value, tools, stop).Success?
          && Preprocess(document.value, tools, stop).Success?
          && Lemmatize(VStr(Preprocess(document.value, tools, stop).value), tools, stop).Success?)
      && (r.Success? ==>
          var d := Preprocess(document.value, tools, stop).value;
          && Subscript(r.value, "title") == Success(VStr(Preprocess(title.value, tools, stop).value))
          && Subscript(r.value, "introduction") == Success(VStr(Preprocess(introduction.value, tools, stop).value))
          && Subscript(r.value, "document") == Success(VStr(d))
          && Subscript(r.value, "document_lemma") == Success(VStr(Lemmatize(VStr(d), tools, stop).value)))
  {
    if file.VDict? {
      var f0 := file.fields;
      var title := Subscript(file, "title");
      if title.Success? {
        var t := Preprocess(title.value, tools, stop);
        if t.Success? {
          var f1 := SetItem(f0, "title", VStr(t.value));
          SubscriptSetItem(f0, "title", VStr(t.value), "introduction");
          var introduction := Subscript(file, "introduction");
          if introduction.Success? {
            var i := Preprocess(introduction.value, tools, stop);
            if i.Success? {
              var f2 := SetItem(f1, "introduction", VStr(i.value));
              SubscriptSetItem(f1, "introduction", VStr(i.value), "document");
              SubscriptSetItem(f0, "title", VStr(t.value), "document");
              var document := Subscript(file, "document");
              if document.Success? {
                var d := Preprocess(document.value, tools, stop);
                if d.Success? {
                  var f3 := SetItem(f2, "document", VStr(d.value));
                  var l := Lemmatize(VStr(d.value), tools, stop);
                  if l.Success? {
                    StoredFields(f0, VStr(t.value), VStr(i.value), VStr(d.value), VStr(l.value));
                  }
                }
              }
            }
          }
        }
      }
    }
  }

  /** Reading back the four fields after the four assignments. */
  lemma StoredFields(fields: seq<Field>, t: Value, i: Value, d: Value, l: Value)
    ensures var r := VDict(SetFields(fields, t, i, d, l));
      && Subscript(r, "title") == Success(t)
      && Subscript(r, "introduction") == Success(i)
      && Subscript(r, "document") == Success(d)
      && Subscript(r, "document_lemma") == Success(l)
  {
    var f1 := SetItem(fields, "title", t);
    var f2 := SetItem(f1, "introduction", i);
    var f3 := SetItem(f2, "document", d);
    SubscriptSetItem(f3, "document_lemma", l, "title");
    SubscriptSetItem(f3, "document_lemma", l, "introduction");
    SubscriptSetItem(f3, "document_lemma", l, "document");
    SubscriptSetItem(f3, "document_lemma", l, "document_lemma");
    SubscriptSetItem(f2, "document", d, "title");
    SubscriptSetItem(f2, "document", d, "introduction");
    SubscriptSetItem(f2, "document", d, "document");
    SubscriptSetItem(f1, "introduction", i, "title");
    SubscriptSetItem(f1, "introduction", i, "introduction");
    SubscriptSetItem(fields, "title", t, "title");
  }

  /** A record reaches a missing field: `title` is missing, or it was
      preprocessed and `introduction` is missing, or both were and
      `document` is missing. */
  predicate ReachesMissingField(file: Value, tools: Tools, stop: seq<string>) {
    && file.VDict?
    && ("title" !in Keys(file.fields)
        || (&& Preprocess(Subscript(file, "title").value, tools, stop).Success?
            && ("introduction" !in Keys(file.fields)
                || (&& Preprocess(Subscript(file, "introduction").value, tools, stop).Success?
                    && "document" !in Keys(file.fields)))))
  }

  /** A missing field is a `KeyError`, which escapes the worker; when the
      segmenter never raises `KeyError` itself, a missing field is the only
      way to one. */
  lemma MissingFieldIsKeyError(file: Value, tools: Tools, stop: seq<string>)
    ensures ReachesMissingField(file, tools, stop) ==> TransformRecord(file, tools, stop) == Failure(KeyError)
    ensures (forall v :: tools.segment(v) != Failure(KeyError)) && TransformRecord(file, tools, stop) == Failure(KeyError)
      ==> ReachesMissingField(file, tools, stop)
  {
    if file.VDict? && "title" in Keys(file.fields) {
      var t := Preprocess(Subscript(file, "title").value, tools, stop);
      if t.Success? {
        var f1 := SetItem(file.fields, "title", VStr(t.value));
        SubscriptSetItem(file.fields, "title", VStr(t.value), "introduction");
        if "introduction" in Keys(file.fields) {
          var i := Preprocess(Subscript(file, "introduction").value, tools, stop);
          if i.Success? {
            SubscriptSetItem(file.fields, "title", VStr(t.value), "document");
            SubscriptSetItem(f1, "introduction", VStr(i.value), "document");
          }
        }
      }
      if "introduction" in Keys(file.fields) && "document" in Keys(file.fields) {
        FieldsPresentRaiseSegmentErrors(file, tools, stop);
      }
    }
  }

  /** With the three fields present, every failure of the transform is one
      the segmenter raised. */
  lemma FieldsPresentRaiseSegmentErrors(file: Value, tools: Tools, stop: seq<string>)
    requires file.VDict?
    requires "title" in Keys(file.fields) && "introduction" in Keys(file.fields) && "document" in Keys(file.fields)
    ensures var r := TransformRecord(file, tools, stop);
      r.Failure? ==> exists v :: tools.segment(v) == Failure(r.error)
  {
    var title := Subscript(file, "title").value;
    var t := Preprocess(title, tools, stop);
    if t.Failure? {
      assert tools.segment(title) == Failure(t.error);
    } else {
      var f1 := SetItem(file.fields, "title", VStr(t.value));
      SubscriptSetItem(file.fields, "title", VStr(t.value), "introduction");
      var introduction := Subscript(file, "introduction").value;
      var i := Preprocess(introduction, tools, stop);
      if i.Failure? {
        assert tools.segment(introduction) == Failure(i.error);
      } else {
        SubscriptSetItem(file.fields, "title", VStr(t.value), "document");
        SubscriptSetItem(f1, "introduction", VStr(i.value), "document");
        var document := Subscript(file, "document").value;
        var d := Preprocess(document, tools, stop);
        if d.Failure? {
          assert tools.segment(document) == Failure(d.error);
        } else {
          var l := Lemmatize(VStr(d.value), tools, stop);
          if l.Failure? {
            assert tools.segment(VStr(d.value)) == Failure(l.error);
          }
        }
      }
    }
  }

  /** The four item assignments of `preprocess`. */
  function SetFields(fields: seq<Field>, t: Value, i: Value, d: Value, l: Value): seq<Field> {
    SetItem(SetItem(SetItem(SetItem(fields, "title", t), "introduction", i), "document", d), "document_lemma", l)
  }

  /** On a dict that has the first three keys, the assignments add at most
      `document_lemma`, at the end. */
  lemma SetFieldsKeys(fields: seq<Field>, t: Value, i: Value, d: Value, l: Value)
    requires "title" in Keys(fields) && "introduction" in Keys(fields) && "document" in Keys(fields)
    ensures Keys(SetFields(fields, t, i, d, l))
      == Keys(fields) + (if "document_lemma" in Keys(fields) then [] else ["document_lemma"])
  {
    var f3 := SetItem(SetItem(SetItem(fields, "title", t), "introduction", i), "document", d);
    ExistingKeys(fields, t, i, d);
    SetItemKeys(f3, "document_lemma", l);
  }

  /** The keys after one assignment: the same keys, plus the new one at the
      end when it was missing. */
  lemma SetItemKeys(fields: seq<Field>, k: string, x: Value)
    ensures Keys(SetItem(fields, k, x)) == Keys(fields) + (if k in Keys(fields) then [] else [k])
  {
    if k in Keys(fields) {
      assert Keys(fields) + [] == Keys(fields);
    }
  }

  /** ... and leave the new title and the lemmas in place. */
  lemma SetFieldsHold(fields: seq<Field>, t: Value, i: Value, d: Value, l: Value)
    requires "title" in Keys(fields) && "introduction" in Keys(fields) && "document" in Keys(fields)
    ensures Field("title", t) in SetFields(fields, t, i, d, l)
    ensures Field("document_lemma", l) in SetFields(fields, t, i, d, l)
  {
    var f3 := SetItem(SetItem(SetItem(fields, "title", t), "introduction", i), "document", d);
    ExistingKeys(fields, t, i, d);
    SetItemKeepsItem(f3, "title", t, "document_lemma", l);
  }

  /** Assigning one key leaves an item with another key in the dict. */
  lemma SetItemKeepsItem(fields: seq<Field>, k: string, x: Value, k': string, x': Value)
    requires Field(k, x) in fields && k != k'
    ensures Field(k, x) in SetItem(fields, k', x')
  {
    var j :| 0 <= j < |fields| && fields[j] == Field(k, x);
    assert SetItem(fields, k', x')[j] == fields[j];
  }

  lemma ExistingKeys(fields: seq<Field>, t: Value, i: Value, d: Value)
    requires "title" in Keys(fields) && "introduction" in Keys(fields) && "document" in Keys(fields)
    ensures var f3 := SetItem(SetItem(SetItem(fields, "title", t), "introduction", i), "document", d);
      Keys(f3) == Keys(fields) && Field("title", t) in f3
  {
    var f1 := SetItem(fields, "title", t);
    var f2 := SetItem(f1, "introduction", i);
    var f3 := SetItem(f2, "document", d);
    assert Keys(f1) == Keys(fields);
    assert Keys(f2) == Keys(f1);
    var j :| 0 <= j < |f1| && f1[j] == Field("title", t);
    assert f3[j] == f2[j] == f1[j];
  }

  /** The assignments leave every other item where and as it was. */
  lemma SetFieldsKeepOthers(fields: seq<Field>, t: Value, i: Value, d: Value, l: Value)
    ensures var r := SetFields(fields, t, i, d, l);
      forall k :: 0 <= k < |fields| && !IsSetField(fields[k].key) ==> k < |r| && r[k] == fields[k]
  {
    var f1 := SetItem(fields, "title", t);
    var f2 := SetItem(f1, "introduction", i);
    var f3 := SetItem(f2, "document", d);
    forall k | 0 <= k < |fields| && !IsSetField(fields[k].key)
      ensures k < |SetItem(f3, "document_lemma", l)| && SetItem(f3, "document_lemma", l)[k] == fields[k]
    {
      assert f1[k] == fields[k];
      assert f2[k] == f1[k];
      assert f3[k] == f2[k];
    }
  }

  /** Where the record is read from and written to: the same file name in
      the output directory. */
  datatype PostConfig = PostConfig(outputDir: string)

  /** The `except` clauses of `preprocess`, top to bottom. */
  const PostClauses: seq<Exc> := [Pycld2Error, JSONDecodeError, ValueError]

  /** The file system after one file, and the exception that escaped the
      worker, if any. */
  datatype PostOutcome = PostOutcome(fs: FileSystem, escaped: Option<Exc>)

  /** `preprocess(filename)`: `loaded` is what `read_json` gave (the object,
      or the exception it raised, `JSONDecodeError` for text that is not
      JSON). */
  function PreprocessFile(fs: FileSystem, cfg: PostConfig, filename: string, loaded: Result<Value, Exc>,
                          tools: Tools, stop: seq<string>, dump: Value -> string): (out: PostOutcome)
    ensures out.escaped.Some? ==> out.fs == fs && HandlingClause(PostClauses, out.escaped.value).None?
    ensures out.fs != fs ==> Path(cfg.outputDir, filename) in out.fs
    ensures forall q :: q != Path(cfg.outputDir, filename) ==> Content(out.fs, q) == Content(fs, q)
  {
    var result := match loaded
      case Failure(e) => Failure(e)
      case Success(file) => TransformRecord(file, tools, stop);
    match result
    case Success(record) => PostOutcome(WriteJson(fs, record, Path(cfg.outputDir, filename), Overwrite, dump), None)
    case Failure(e) =>
      if HandlingClause(PostClauses, e).Some? then PostOutcome(fs, None) else PostOutcome(fs, Some(e))
  }

  /** The routing: a record that transforms is written, under its own file
      name, as the dump of the transformed record; `pycld2.error`,
      `JSONDecodeError` and any other `ValueError` are logged and write
      nothing; every other exception (a `KeyError` for a missing field, a
      `TypeError` for a top-level value that is not an object) escapes and
      writes nothing. */
  lemma PreprocessFileRouting(fs: FileSystem, cfg: PostConfig, filename: string, loaded: Result<Value, Exc>,
                              tools: Tools, stop: seq<string>, dump: Value -> string)
    ensures var out := PreprocessFile(fs, cfg, filename, loaded, tools, stop, dump);
      var result := if loaded.Failure? then Failure(loaded.error) else TransformRecord(loaded.value, tools, stop);
      && (result.Success? ==> out == PostOutcome(fs[Path(cfg.outputDir, filename) := dump(result.value)], None))
      && (result.Failure? && IsInstance(result.error, ValueError) ==> out == PostOutcome(fs, None))
      && (result.Failure? && result.error == Pycld2Error ==> out == PostOutcome(fs, None))
      && (result.Failure? && !(result.error == Pycld2Error || IsInstance(result.error, ValueError)) ==>
            out == PostOutcome(fs, Some(result.error)))
  {
    var result := if loaded.Failure? then Failure(loaded.error) else TransformRecord(loaded.value, tools, stop);
    if result.Failure? {
      PostClausesCatch(PostClauses, result.error);
    }
  }

  /** The `except` clauses of `preprocess` catch `pycld2.error` and every
      `ValueError`, `JSONDecodeError` included, and nothing else. */
  lemma PostClausesCatch(clauses: seq<Exc>, e: Exc)
    requires clauses == PostClauses
    ensures HandlingClause(clauses, e).Some? <==> e == Pycld2Error || IsInstance(e, ValueError)
  {
    HandlingClauseSpec(clauses, e);
    assert forall j :: 0 <= j < |clauses| ==> (IsInstance(e, clauses[j]) ==> e == Pycld2Error || IsInstance(e, ValueError));
    if IsInstance(e, ValueError) {
      assert IsInstance(e, clauses[2]);
    } else if e == Pycld2Error {
      assert IsInstance(e, clauses[0]);
    }
  }

  /** The stop-word list: the lines of the stop-word file. */
  function StopWords(fileText: string): (words: seq<string>)
    ensures |words| >= 1
    ensures forall w :: w in words ==> '\n' !in w
    ensures Join("\n", words) == fileText
  {
    JoinSplit(fileText, '\n');
    Split(fileText, '\n')
  }
}
