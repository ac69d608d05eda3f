/**
 Every way to write a list of words for the NUT server (lib/NUTServer/src/NUTServer.cpp), and what the encoder
 writes: the splitter and the encoder stated on the characters themselves.
 */
module NutSpellings {
  import opened Prelude
  import opened NutTokens

  // ----- The encoder, character by character -----

  /** A backslash goes before hash, backslash and quote, and before nothing else; a value ends at its NUL. */
  lemma EncodeExactly(c: char, a: string, b: string)
    ensures Encode("") == ""
    ensures c != '\0' ==> Encode([c]) == if c == '#' || c == '\\' || c == '"' then ['\\', c] else [c]
    ensures '\0' !in a ==> Encode(a + b) == Encode(a) + Encode(b)
    ensures '\0' !in a ==> Encode(a + (['\0'] + b)) == Encode(a)
  {
    if c != '\0' {
      assert [c][1..] == "";
    }
    if '\0' !in a {
      EncodeParts(a, b);
      EncodeParts(a, ['\0'] + b);
      assert Encode(a) + "" == Encode(a);
    }
  }

  lemma {:induction false} EncodeParts(a: string, b: string)
    requires '\0' !in a
    ensures Encode(a + b) == Encode(a) + Encode(b)
    decreases |a|
  {
    if a == "" {
      assert a + b == b;
    } else {
      assert (a + b)[1..] == a[1..] + b;
      EncodeParts(a[1..], b);
      Associative(Literal(a[0]), Encode(a[1..]), Encode(b));
    }
  }

  /** A name of a UPS: printable ASCII, not empty, without the characters that the protocol or a client would read. */
  lemma NamesExactly(c: char, a: string, b: string)
    ensures !ValidUpsName("")
    ensures ValidUpsName([c]) <==> '!' <= c <= '~' && c != '"' && c != '\\' && c != '#' && c != '@'
    ensures a != "" && b != "" ==> (ValidUpsName(a + b) <==> ValidUpsName(a) && ValidUpsName(b))
  {
    assert [c][0] == c;
    if a != "" && b != "" && ValidUpsName(a + b) {
      forall i | 0 <= i < |a| ensures 0x21 <= a[i] as int <= 0x7E && a[i] !in {'"', '\\', '#', '@'} {
        assert (a + b)[i] == a[i];
      }
      forall i | 0 <= i < |b| ensures 0x21 <= b[i] as int <= 0x7E && b[i] !in {'"', '\\', '#', '@'} {
        assert (a + b)[|a| + i] == b[i];
      }
    }
  }

  // ----- Spellings -----

  /** A character between quotes, with a backslash before it or, unless it is a backslash or a quote, without. */
  datatype Inner = Open(c: char) | Slashed(c: char) {
    predicate Valid() {
      Open? ==> c != '\\' && c != '"'
    }

    function Text(): (r: string) {
      if Open? then [c] else ['\\', c]
    }
  }

  function InnerText(inner: seq<Inner>): (r: string) {
    if inner == [] then "" else inner[0].Text() + InnerText(inner[1..])
  }

  function InnerValue(inner: seq<Inner>): (r: string) {
    if inner == [] then "" else [inner[0].c] + InnerValue(inner[1..])
  }

  /** A part of a word: a character, one after a backslash, or a quoted string. */
  datatype Piece = Bare(c: char) | Escape(c: char) | Quoted(inner: seq<Inner>) {
    predicate Valid() {
      match this
      case Bare(c) => c != '\\' && c != '"' && c != ' '
      case Escape(_) => true
      case Quoted(inner) => forall i <- inner :: i.Valid()
    }

    function Text(): (r: string) {
      match this
      case Bare(c) => [c]
      case Escape(c) => ['\\', c]
      case Quoted(inner) => ['"'] + (InnerText(inner) + ['"'])
    }

    function Value(): (r: string) {
      match this
      case Bare(c) => [c]
      case Escape(c) => [c]
      case Quoted(inner) => InnerValue(inner)
    }
  }

  type Word = seq<Piece>

  /** A word has at least one part; it may be an empty pair of quotes. */
  predicate ValidWord(word: Word) {
    word != [] && forall p <- word :: p.Valid()
  }

  function WordText(word: Word): (r: string) {
    if word == [] then "" else word[0].Text() + WordText(word[1..])
  }

  function WordValue(word: Word): (r: string) {
    if word == [] then "" else word[0].Value() + WordValue(word[1..])
  }

  function Spaces(n: nat): (r: string) {
    if n == 0 then "" else [' '] + Spaces(n - 1)
  }

  /** Each word with the number of spaces, at least one, after it. */
  function LineText(words: seq<(Word, nat)>): (r: string) {
    if words == [] then "" else WordText(words[0].0) + ([' '] + (Spaces(words[0].1) + LineText(words[1..])))
  }

  function LineValues(words: seq<(Word, nat)>): (r: seq<string>) {
    if words == [] then [] else [WordValue(words[0].0)] + LineValues(words[1..])
  }

  lemma {:induction false} ScanInner(s: Scanner, inner: seq<Inner>, rest: string)
    requires s.inQuotes && forall i <- inner :: i.Valid()
    ensures Scan(s, InnerText(inner) + rest) == Scan(s.(current := s.current + InnerValue(inner)), rest)
    decreases |inner|
  {
    if inner == [] {
      assert InnerText(inner) + rest == rest && s.current + "" == s.current;
    } else {
      var i, tail := inner[0], InnerText(inner[1..]) + rest;
      var t := s.(current := s.current + [i.c]);
      assert i in inner;
      Associative(i.Text(), InnerText(inner[1..]), rest);
      assert (i.Text() + tail)[|i.Text()|..] == tail;
      assert Scan(s, i.Text() + tail) == Scan(t, tail);
      ScanInner(t, inner[1..], rest);
      Associative(s.current, [i.c], InnerValue(inner[1..]));
    }
  }

  function After(s: Scanner, p: Piece): (r: Scanner) {
    s.(current := s.current + p.Value(), quoted := s.quoted || p.Quoted?)
  }

  lemma ScanQuotes(s: Scanner, inner: seq<Inner>, rest: string)
    requires !s.inQuotes && forall i <- inner :: i.Valid()
    ensures Scan(s, ['"'] + (InnerText(inner) + (['"'] + rest))) == Scan(After(s, Quoted(inner)), rest)
  {
    var t := s.(inQuotes := true);
    assert (['"'] + (InnerText(inner) + (['"'] + rest)))[1..] == InnerText(inner) + (['"'] + rest);
    ScanInner(t, inner, ['"'] + rest);
    assert (['"'] + rest)[1..] == rest;
  }

  lemma ScanBare(s: Scanner, c: char, rest: string)
    requires !s.inQuotes && Bare(c).Valid()
    ensures Scan(s, [c] + rest) == Scan(After(s, Bare(c)), rest)
  {
    assert ([c] + rest)[1..] == rest;
  }

  lemma ScanEscape(s: Scanner, c: char, rest: string)
    requires !s.inQuotes
    ensures Scan(s, ['\\', c] + rest) == Scan(After(s, Escape(c)), rest)
  {
    assert (['\\', c] + rest)[2..] == rest;
  }

  lemma Requote(a: string, rest: string)
    ensures (['"'] + (a + ['"'])) + rest == ['"'] + (a + (['"'] + rest))
  {
  }

  lemma ScanPiece(s: Scanner, p: Piece, rest: string)
    requires !s.inQuotes && p.Valid()
    ensures Scan(s, p.Text() + rest) == Scan(After(s, p), rest)
  {
    match p {
      case Bare(c) => ScanBare(s, c, rest);
      case Escape(c) => ScanEscape(s, c, rest);
      case Quoted(inner) =>
        Requote(InnerText(inner), rest);
        ScanQuotes(s, inner, rest);
    }
  }

  predicate HasQuotes(word: Word) {
    exists p <- word :: p.Quoted?
  }

  lemma {:induction false} ScanPieces(s: Scanner, word: Word, rest: string)
    requires !s.inQuotes && forall p <- word :: p.Valid()
    ensures Scan(s, WordText(word) + rest)
         == Scan(s.(current := s.current + WordValue(word), quoted := s.quoted || HasQuotes(word)), rest)
    decreases |word|
  {
    if word == [] {
      assert WordText(word) + rest == rest && s.current + "" == s.current;
    } else {
      var p := word[0];
      assert p in word && word == [p] + word[1..];
      Associative(p.Text(), WordText(word[1..]), rest);
      ScanPiece(s, p, WordText(word[1..]) + rest);
      ScanPieces(After(s, p), word[1..], rest);
      Associative(s.current, p.Value(), WordValue(word[1..]));
      assert HasQuotes(word) <==> p.Quoted? || HasQuotes(word[1..]);
    }
  }

  /** A word without a value has quotes. */
  lemma ValueOrQuotes(word: Word)
    requires ValidWord(word)
    ensures WordValue(word) != "" || HasQuotes(word)
  {
    assert word[0] in word;
  }

  lemma {:induction false} ScanSpaces(tokens: seq<string>, n: nat, rest: string)
    ensures Scan(Scanner(tokens, "", false, false), Spaces(n) + rest) == Scan(Scanner(tokens, "", false, false), rest)
    decreases n
  {
    if n == 0 {
      assert Spaces(0) + rest == rest;
    } else {
      assert (Spaces(n) + rest)[0] == ' ' && (Spaces(n) + rest)[1..] == Spaces(n - 1) + rest;
      ScanSpaces(tokens, n - 1, rest);
    }
  }

  /** A word and the spaces after it. */
  lemma ScanOneWord(tokens: seq<string>, word: Word, n: nat, rest: string)
    requires ValidWord(word)
    ensures Scan(Scanner(tokens, "", false, false), WordText(word) + ([' '] + (Spaces(n) + rest)))
         == Scan(Scanner(tokens + [WordValue(word)], "", false, false), rest)
  {
    var s := Scanner(tokens, "", false, false);
    ScanPieces(s, word, [' '] + (Spaces(n) + rest));
    assert "" + WordValue(word) == WordValue(word);
    ValueOrQuotes(word);
    assert ([' '] + (Spaces(n) + rest))[1..] == Spaces(n) + rest;
    ScanSpaces(tokens + [WordValue(word)], n, rest);
  }

  lemma Rejoin(a: string, b: string, c: string, d: string)
    ensures (a + ([' '] + (b + c))) + d == a + ([' '] + (b + (c + d)))
  {
  }

  lemma FirstWord(words: seq<(Word, nat)>, rest: string)
    requires words != []
    ensures LineText(words) + rest
         == WordText(words[0].0) + ([' '] + (Spaces(words[0].1) + (LineText(words[1..]) + rest)))
  {
    Rejoin(WordText(words[0].0), Spaces(words[0].1), LineText(words[1..]), rest);
  }

  lemma FirstValue(tokens: seq<string>, words: seq<(Word, nat)>)
    requires words != []
    ensures (tokens + [WordValue(words[0].0)]) + LineValues(words[1..]) == tokens + LineValues(words)
  {
  }

  lemma {:induction false} ScanWords(tokens: seq<string>, words: seq<(Word, nat)>, rest: string)
    requires forall w <- words :: ValidWord(w.0)
    ensures Scan(Scanner(tokens, "", false, false), LineText(words) + rest)
         == Scan(Scanner(tokens + LineValues(words), "", false, false), rest)
    decreases |words|
  {
    if words == [] {
      assert LineText(words) + rest == rest && tokens + [] == tokens;
    } else {
      var w := words[0];
      assert w in words;
      FirstWord(words, rest);
      ScanOneWord(tokens, w.0, w.1, LineText(words[1..]) + rest);
      ScanWords(tokens + [WordValue(w.0)], words[1..], rest);
      FirstValue(tokens, words);
    }
  }

  lemma NoneBefore(words: seq<string>)
    ensures [] + words == words
  {
  }

  lemma ScanLine(lead: nat, words: seq<(Word, nat)>, rest: string)
    requires forall w <- words :: ValidWord(w.0)
    ensures Scan(START, Spaces(lead) + (LineText(words) + rest))
         == Scan(Scanner(LineValues(words), "", false, false), rest)
  {
    ScanSpaces([], lead, LineText(words) + rest);
    ScanWords([], words, rest);
    NoneBefore(LineValues(words));
  }

  lemma ScanLast(tokens: seq<string>, last: Word)
    requires ValidWord(last)
    ensures EndWord(Scan(Scanner(tokens, "", false, false), WordText(last))).tokens == tokens + [WordValue(last)]
  {
    ScanPieces(Scanner(tokens, "", false, false), last, "");
    ValueOrQuotes(last);
    assert WordText(last) + "" == WordText(last) && "" + WordValue(last) == WordValue(last);
  }

  /**
   Any list of words, each written in any of its ways (bare, with backslashes, quoted, or in parts), with any
   spaces before, between and after them, is split into exactly those words.
   */
  lemma SplitReadsAnySpelling(lead: nat, words: seq<(Word, nat)>, last: Word)
    requires (forall w <- words :: ValidWord(w.0)) && ValidWord(last)
    ensures Split(Spaces(lead) + LineText(words)) == LineValues(words)
    ensures Split(Spaces(lead) + (LineText(words) + WordText(last))) == LineValues(words) + [WordValue(last)]
  {
    ScanLine(lead, words, "");
    assert LineText(words) + "" == LineText(words);
    ScanLine(lead, words, WordText(last));
    ScanLast(LineValues(words), last);
  }

  /** A backslash at the very end is dropped, and a quote that is never closed ends with the line. */
  lemma UnfinishedLines(word: Word, inner: seq<Inner>)
    requires ValidWord(word) && inner != [] && forall i <- inner :: i.Valid()
    ensures Split(WordText(word) + ['\\']) == [WordValue(word)]
    ensures Split(['"'] + InnerText(inner)) == [InnerValue(inner)]
  {
    ScanPieces(START, word, ['\\']);
    ValueOrQuotes(word);
    assert "" + WordValue(word) == WordValue(word);
    var t := START.(inQuotes := true);
    assert (['"'] + InnerText(inner))[1..] == InnerText(inner) == InnerText(inner) + "";
    ScanInner(t, inner, "");
    assert "" + InnerValue(inner) == InnerValue(inner) && InnerValue(inner) != "";
  }
}
