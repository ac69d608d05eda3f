/**
 Which names and which text a syslog message carries (lib/LogCore/src/SyslogFormat.cpp), for every input: the
 characters that stay, the limits, and how a text is blanked and cut.
 */
module SyslogNames {
  import opened Prelude
  import opened SyslogFormat

  lemma CutLonger(s: string, max: nat, keep: char -> bool)
    requires |s| >= 1 && max >= 1 && forall c <- s :: keep(c) && c != '\0'
    ensures Token(s, max, keep) == s[..Min(|s|, max)]
  {
    AllKept(s, keep);
  }

  lemma PickedFirst(x: char, rest: string, keep: char -> bool)
    requires x != '\0'
    ensures Filter(CStr([x] + rest), keep) == (if keep(x) then [x] else []) + Filter(CStr(rest), keep)
  {
    assert ([x] + rest)[1..] == rest;
    assert CStr([x] + rest) == [x] + CStr(rest);
    assert ([x] + CStr(rest))[1..] == CStr(rest);
  }

  lemma FirstApart(x: char, a: string, b: string)
    ensures ([x] + a) + b == [x] + (a + b)
  {
  }

  lemma {:induction false} DroppedChar(a: string, c: char, b: string, keep: char -> bool)
    requires !keep(c) && c != '\0'
    ensures Filter(CStr(a + ([c] + b)), keep) == Filter(CStr(a + b), keep)
    decreases |a|
  {
    if a == "" {
      PickedFirst(c, b, keep);
      assert a + ([c] + b) == [c] + b && a + b == b;
    } else {
      var x, rest := a[0], a[1..];
      assert a == [x] + rest;
      FirstApart(x, rest, [c] + b);
      FirstApart(x, rest, b);
      if x != '\0' {
        DroppedChar(rest, c, b, keep);
        PickedFirst(x, rest + ([c] + b), keep);
        PickedFirst(x, rest + b, keep);
      }
    }
  }

  lemma {:induction false} EndsAtNul(a: string, b: string)
    ensures CStr(a + (['\0'] + b)) == CStr(a)
    decreases |a|
  {
    if a == "" {
      assert a + (['\0'] + b) == ['\0'] + b;
    } else {
      assert (a + (['\0'] + b))[1..] == a[1..] + (['\0'] + b);
      EndsAtNul(a[1..], b);
    }
  }

  /** What makes up a token: the kept characters, as many as fit, up to the NUL, and "-" for none. */
  lemma TokenLaws(s: string, a: string, c: char, b: string, max: nat, keep: char -> bool)
    requires max >= 1
    ensures s != "" && (forall x <- s :: keep(x) && x != '\0') ==> Token(s, max, keep) == s[..Min(|s|, max)]
    ensures !keep(c) && c != '\0' ==> Token(a + ([c] + b), max, keep) == Token(a + b, max, keep)
    ensures Token(a + (['\0'] + b), max, keep) == Token(a, max, keep)
    ensures Token("", max, keep) == "-"
  {
    if s != "" && (forall x <- s :: keep(x) && x != '\0') {
      CutLonger(s, max, keep);
    }
    if !keep(c) && c != '\0' {
      DroppedChar(a, c, b, keep);
    }
    EndsAtNul(a, b);
  }

  /** The host: the printable ASCII characters other than space, at most 63 of them. */
  lemma HostExactly(s: string, a: string, c: char, b: string)
    ensures s != "" && (forall x <- s :: 33 <= x as int <= 126) ==> Host(Some(s)) == s[..Min(|s|, 63)]
    ensures !(33 <= c as int <= 126) && c != '\0' ==> Host(Some(a + ([c] + b))) == Host(Some(a + b))
    ensures Host(Some(a + (['\0'] + b))) == Host(Some(a))
    ensures Host(None) == Host(Some("")) == "-"
  {
    TokenLaws(s, a, c, b, 63, PrintUsAscii);
  }

  /** The application of RFC 5424: the same characters, at most 48. */
  lemma AppExactly(s: string, a: string, c: char, b: string)
    ensures s != "" && (forall x <- s :: 33 <= x as int <= 126) ==> Tag(RFC5424, Some(s)) == s[..Min(|s|, 48)]
    ensures !(33 <= c as int <= 126) && c != '\0' ==>
      Tag(RFC5424, Some(a + ([c] + b))) == Tag(RFC5424, Some(a + b))
    ensures Tag(RFC5424, Some(a + (['\0'] + b))) == Tag(RFC5424, Some(a))
    ensures Tag(RFC5424, None) == Tag(RFC5424, Some("")) == "-"
  {
    TokenLaws(s, a, c, b, 48, PrintUsAscii);
  }

  /** A character the printer lets into a TAG. */
  predicate InTag(c: char) {
    'A' <= c <= 'Z' || 'a' <= c <= 'z' || '0' <= c <= '9' || c == '_' || c == '-'
  }

  /** The tag of RFC 3164: letters, digits, '-' and '_', at most 32. */
  lemma TagExactly(s: string, a: string, c: char, b: string)
    ensures s != "" && (forall x <- s :: InTag(x)) ==> Tag(RFC3164, Some(s)) == s[..Min(|s|, 32)]
    ensures !InTag(c) && c != '\0' ==> Tag(RFC3164, Some(a + ([c] + b))) == Tag(RFC3164, Some(a + b))
    ensures Tag(RFC3164, Some(a + (['\0'] + b))) == Tag(RFC3164, Some(a))
    ensures Tag(RFC3164, None) == Tag(RFC3164, Some("")) == "-"
  {
    TokenLaws(s, a, c, b, 32, TagChar);
  }

  /** A control character, which is printed as a space. */
  predicate Control(c: char) {
    (c as int) < 32 || c as int == 127
  }

  /**
   The text of a message with room for so many characters: the message up to its NUL with control characters as
   spaces, cut to the room and without the spaces at its end; nothing else is left out.
   */
  lemma TextExactly(msg: string, room: nat)
    ensures var t := Message(Some(msg), room);
      && |t| <= room && |t| <= |msg|
      && (forall i :: 0 <= i < |t| ==> msg[i] != '\0' && t[i] == if Control(msg[i]) then ' ' else msg[i])
      && (t != "" ==> t[|t| - 1] != ' ')
    ensures var t := Message(Some(msg), room);
      forall i :: |t| <= i < Min(room, |CStr(msg)|) ==> msg[i] == ' ' || Control(msg[i])
    ensures Message(None, room) == ""
  {
    var c, cut := CStr(msg), Cut(Blanked(CStr(msg)), room);
    var t := TrimRight(cut);
    forall i | 0 <= i < |t| ensures msg[i] != '\0' && t[i] == if Control(msg[i]) then ' ' else msg[i] {
      assert t[i] == cut[i] == Blank(c[i]) && c[i] == msg[i] && c[i] in c;
    }
    forall i | |t| <= i < Min(room, |c|) ensures msg[i] == ' ' || Control(msg[i]) {
      assert cut[i] == ' ' && cut[i] == Blank(c[i]) && c[i] == msg[i];
    }
  }
}
