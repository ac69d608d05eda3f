/** Words of the NUT protocol (lib/NUTServer/src/NUTServer.cpp): encodeValue() and splitTokens(). */
module NutTokens {
  import opened Prelude

  predicate Escaped(c: char) {
    c == '#' || c == '\\' || c == '"'
  }

  function Literal(c: char): (r: string) {
    if Escaped(c) then ['\\', c] else [c]
  }

  /** encodeValue() on a C string: a backslash before each character of "#\"\\". */
  function Encode(raw: string): (r: string) {
    if raw == "" || raw[0] == '\0' then ""
    else Literal(raw[0]) + Encode(raw[1..])
  }

  /** The locals of splitTokens() between two characters. */
  datatype Scanner = Scanner(tokens: seq<string>, current: string, inQuotes: bool, quoted: bool)

  const START: Scanner := Scanner([], "", false, false)

  /** The end of a word: kept when it has characters or had a pair of quotes. */
  function EndWord(s: Scanner): (r: Scanner) {
    Scanner(if s.current != "" || s.quoted then s.tokens + [s.current] else s.tokens,
            if s.current != "" || s.quoted then "" else s.current, s.inQuotes, false)
  }

  function Scan(s: Scanner, input: string): (r: Scanner)
    decreases |input|
  {
    if input == "" then s
    else if input[0] == '\\' then
      if |input| == 1 then s else Scan(s.(current := s.current + [input[1]]), input[2..])
    else if input[0] == '"' then
      Scan(s.(quoted := s.quoted || s.inQuotes, inQuotes := !s.inQuotes), input[1..])
    else if input[0] == ' ' && !s.inQuotes then Scan(EndWord(s), input[1..])
    else Scan(s.(current := s.current + [input[0]]), input[1..])
  }

  /** The words of a request line. */
  function Split(input: string): (r: seq<string>) {
    EndWord(Scan(START, input)).tokens
  }

  method EncodeValue(raw: string) returns (out: string)
    ensures out == Encode(raw)
  {
    out := "";
    var p := 0;
    while p < |raw| && raw[p] != '\0'
      invariant p <= |raw|
      invariant out + Encode(raw[p..]) == Encode(raw)
    {
      assert raw[p..][1..] == raw[p + 1..];
      if Escaped(raw[p]) {
        out := out + ['\\'];
      }
      out := out + [raw[p]];
      p := p + 1;
    }
  }

  method SplitTokens(input: string) returns (tokens: seq<string>)
    ensures tokens == Split(input)
  {
    tokens := [];
    var current, inQuotes, quoted := "", false, false;
    var i := 0;
    while i < |input|
      invariant i <= |input|
      invariant Scan(Scanner(tokens, current, inQuotes, quoted), input[i..]) == Scan(START, input)
    {
      var c := input[i];
      assert input[i..][1..] == input[i + 1..];
      if c == '\\' {
        if i + 1 < |input| {
          assert input[i..][2..] == input[i + 2..];
          i := i + 1;
          current := current + [input[i]];
        }
      } else if c == '"' {
        if inQuotes {
          quoted := true;
        }
        inQuotes := !inQuotes;
      } else if c == ' ' && !inQuotes {
        if |current| > 0 || quoted {
          tokens := tokens + [current];
          current := "";
        }
        quoted := false;
      } else {
        current := current + [c];
      }
      i := i + 1;
    }
    if |current| > 0 || quoted {
      tokens := tokens + [current];
    }
  }

  /** isValidUpsName() */
  predicate ValidUpsName(name: string) {
    name != "" && forall i :: 0 <= i < |name| ==>
      0x21 <= name[i] as int <= 0x7E && name[i] !in {'"', '\\', '#', '@'}
  }

  method IsValidUpsName(name: string) returns (valid: bool)
    ensures valid <==> ValidUpsName(name)
  {
    if |name| == 0 {
      return false;
    }
    for i := 0 to |name|
      invariant forall k :: 0 <= k < i ==> 0x21 <= name[k] as int <= 0x7E && name[k] !in {'"', '\\', '#', '@'}
    {
      var c := name[i];
      if (c as int) < 0x21 || (c as int) > 0x7E {
        return false;
      }
      if c == '"' || c == '\\' || c == '#' || c == '@' {
        return false;
      }
    }
    return true;
  }

  /** One character of an encoded value, escaped or not, scans as itself. */
  lemma ScanOne(s: Scanner, c: char, rest: string)
    requires s.inQuotes
    ensures Scan(s, Literal(c) + rest) == Scan(s.(current := s.current + [c]), rest)
  {
    assert (Literal(c) + rest)[|Literal(c)|..] == rest;
  }

  lemma Associative(a: string, b: string, c: string)
    ensures (a + b) + c == a + (b + c)
  {
  }

  /** Inside quotes the encoded value scans as the value. */
  lemma {:induction false} ScanEncoded(s: Scanner, raw: string, rest: string)
    requires s.inQuotes
    ensures Scan(s, Encode(raw) + rest) == Scan(s.(current := s.current + CStr(raw)), rest)
    decreases |raw|
  {
    if raw == "" || raw[0] == '\0' {
      assert Encode(raw) + rest == rest && s.current + "" == s.current;
    } else {
      var t := s.(current := s.current + [raw[0]]);
      ScanEncoded(t, raw[1..], rest);
      ScanOne(s, raw[0], Encode(raw[1..]) + rest);
      Associative(Literal(raw[0]), Encode(raw[1..]), rest);
      Associative(s.current, [raw[0]], CStr(raw[1..]));
    }
  }

  predicate Plain(word: string) {
    forall i :: 0 <= i < |word| ==> word[i] !in {'"', '\\', ' '}
  }

  /** A word of plain characters scans as itself. */
  lemma {:induction false} ScanPlain(s: Scanner, word: string, rest: string)
    requires Plain(word)
    ensures Scan(s, word + rest) == Scan(s.(current := s.current + word), rest)
    decreases |word|
  {
    if word == "" {
      assert word + rest == rest && s.current + word == s.current;
    } else {
      assert (word + rest)[0] == word[0] && (word + rest)[1..] == word[1..] + rest;
      var t := s.(current := s.current + [word[0]]);
      ScanPlain(t, word[1..], rest);
      assert t.current + word[1..] == s.current + word;
    }
  }

  /** A plain word and the space after it. */
  lemma ScanWord(tokens: seq<string>, word: string, rest: string)
    requires word != "" && Plain(word)
    ensures Scan(Scanner(tokens, "", false, false), word + (" " + rest))
         == Scan(Scanner(tokens + [word], "", false, false), rest)
  {
    var s := Scanner(tokens, "", false, false);
    ScanPlain(s, word, " " + rest);
    assert s.current + word == word && (" " + rest)[1..] == rest;
  }

  function Quote(word: string): (r: string) {
    "\"" + (Encode(word) + "\"")
  }

  /** A quoted word, empty or not, is one word. */
  lemma ScanQuoted(tokens: seq<string>, word: string, rest: string)
    ensures Scan(Scanner(tokens, "", false, false), Quote(word) + rest)
         == Scan(Scanner(tokens, CStr(word), false, true), rest)
  {
    var s := Scanner(tokens, "", false, false);
    assert Quote(word) + rest == "\"" + (Encode(word) + ("\"" + rest));
    assert ("\"" + (Encode(word) + ("\"" + rest)))[1..] == Encode(word) + ("\"" + rest);
    ScanEncoded(s.(inQuotes := true), word, "\"" + rest);
    assert "" + CStr(word) == CStr(word) && ("\"" + rest)[1..] == rest;
  }

  function Join(words: seq<string>): (r: string) {
    if words == [] then ""
    else if |words| == 1 then Quote(words[0])
    else Quote(words[0]) + (" " + Join(words[1..]))
  }

  function CStrs(words: seq<string>): (r: seq<string>)
    ensures |r| == |words|
  {
    if words == [] then [] else [CStr(words[0])] + CStrs(words[1..])
  }

  lemma {:induction false} ScanJoin(tokens: seq<string>, words: seq<string>)
    ensures EndWord(Scan(Scanner(tokens, "", false, false), Join(words))).tokens == tokens + CStrs(words)
    decreases |words|
  {
    if words == [] {
    } else if |words| == 1 {
      ScanQuoted(tokens, words[0], "");
      assert Quote(words[0]) + "" == Quote(words[0]);
      assert CStrs(words) == [CStr(words[0])];
    } else {
      ScanQuoted(tokens, words[0], " " + Join(words[1..]));
      assert (" " + Join(words[1..]))[1..] == Join(words[1..]);
      ScanJoin(tokens + [CStr(words[0])], words[1..]);
      assert tokens + CStrs(words) == (tokens + [CStr(words[0])]) + CStrs(words[1..]);
    }
  }

  /** Quoting every word, joining with spaces and splitting gives the list of words back. */
  lemma SplitUndoesJoin(words: seq<string>)
    ensures Split(Join(words)) == CStrs(words)
  {
    ScanJoin([], words);
    assert [] + CStrs(words) == CStrs(words);
  }

  lemma {:induction false} CStrIdentity(s: string)
    requires '\0' !in s
    ensures CStr(s) == s
  {
    if s != "" {
      CStrIdentity(s[1..]);
    }
  }

  lemma {:induction false} CStrsIdentity(words: seq<string>)
    requires forall w <- words :: '\0' !in w
    ensures CStrs(words) == words
  {
    if words != [] {
      CStrIdentity(words[0]);
      CStrsIdentity(words[1..]);
    }
  }

  /** For words a C string can hold it is the same list, empty words included. */
  lemma SplitGivesWordsBack(words: seq<string>)
    requires forall w <- words :: '\0' !in w
    ensures Split(Join(words)) == words
  {
    SplitUndoesJoin(words);
    CStrsIdentity(words);
  }

  /** "VAR <ups> <name> "<value>"", a line of LIST VAR and of GET VAR, without its newline. */
  function VarLine(ups: string, name: string, value: string): (r: string) {
    "VAR" + (" " + (ups + (" " + (name + (" " + Quote(value))))))
  }

  lemma ValidIsPlain(name: string)
    requires ValidUpsName(name)
    ensures Plain(name) && name != ""
  {
  }

  /** A client that splits a reply line as the server splits requests reads exactly what was meant. */
  lemma SplitReadsVarLine(ups: string, name: string, value: string)
    requires ValidUpsName(ups) && ValidUpsName(name)
    ensures Split(VarLine(ups, name, value)) == ["VAR", ups, name, CStr(value)]
  {
    ScanWord([], "VAR", ups + (" " + (name + (" " + Quote(value)))));
    ScanWord(["VAR"], ups, name + (" " + Quote(value)));
    ScanWord(["VAR", ups], name, Quote(value));
    ScanQuoted(["VAR", ups, name], value, "");
    assert Quote(value) + "" == Quote(value);
    assert [] + ["VAR"] == ["VAR"] && ["VAR"] + [ups] == ["VAR", ups] && ["VAR", ups] + [name] == ["VAR", ups, name];
  }

  function Spaced(words: seq<string>, last: string): (r: string) {
    if words == [] then last else words[0] + (" " + Spaced(words[1..], last))
  }

  /** What a client cannot hide from the server: a request of plain words arrives word by word. */
  lemma {:induction false} SplitReadsPlainWords(words: seq<string>, last: string, tokens: seq<string>)
    requires forall i :: 0 <= i < |words| ==> ValidUpsName(words[i])
    requires ValidUpsName(last)
    ensures EndWord(Scan(Scanner(tokens, "", false, false), Spaced(words, last))).tokens == tokens + words + [last]
    decreases |words|
  {
    if words == [] {
      ScanPlain(Scanner(tokens, "", false, false), last, "");
      assert last + "" == last && "" + last == last;
    } else {
      ValidIsPlain(words[0]);
      ScanWord(tokens, words[0], Spaced(words[1..], last));
      SplitReadsPlainWords(words[1..], last, tokens + [words[0]]);
      assert tokens + words == (tokens + [words[0]]) + words[1..];
    }
  }
}
