/** The public key formatting of crypto.go: Snowflake wants the base64 body on one line. */
module Pem {
  import opened Text

  const BEGIN := "-----BEGIN PUBLIC KEY-----"
  const END := "-----END PUBLIC KEY-----"

  /** The text after the first BEGIN marker and before the END marker that follows it. */
  function Unmarked(pemKey: string): string {
    var b := Index(pemKey, BEGIN);
    var afterBegin := if b >= 0 then pemKey[b + |BEGIN|..] else pemKey;
    var e := Index(afterBegin, END);
    if e >= 0 then afterBegin[..e] else afterBegin
  }

  function Strip(s: string): string {
    ReplaceAll(ReplaceAll(ReplaceAll(s, '\n', ""), '\r', ""), ' ', "")
  }

  function StripPemHeaders(pemKey: string): string {
    Strip(Unmarked(pemKey))
  }

  predicate IsBase64(c: char) {
    'A' <= c <= 'Z' || 'a' <= c <= 'z' || '0' <= c <= '9' || c == '+' || c == '/' || c == '='
  }

  /** The body cut into lines of `width` characters, each ended by `eol`. */
  function Wrap(body: string, width: nat, eol: string): string
    requires width > 0
  {
    if |body| <= width then (if body == "" then "" else body + eol)
    else body[..width] + eol + Wrap(body[width..], width, eol)
  }

  /** The textual encoding of a public key, section 13 of RFC 7468. */
  function Encode(body: string, width: nat, eol: string): string
    requires width > 0
  {
    BEGIN + (eol + Wrap(body, width, eol) + (END + eol))
  }

  lemma StripConcat(s: string, t: string)
    ensures Strip(s + t) == Strip(s) + Strip(t)
  {
    ReplaceAllConcat(s, t, '\n', "");
    ReplaceAllConcat(ReplaceAll(s, '\n', ""), ReplaceAll(t, '\n', ""), '\r', "");
    ReplaceAllConcat(ReplaceAll(ReplaceAll(s, '\n', ""), '\r', ""),
                     ReplaceAll(ReplaceAll(t, '\n', ""), '\r', ""), ' ', "");
  }

  lemma StripClean(s: string)
    requires '\n' !in s && '\r' !in s && ' ' !in s
    ensures Strip(s) == s
  {
    ReplaceAllAbsent(s, '\n', "");
    ReplaceAllAbsent(s, '\r', "");
    ReplaceAllAbsent(s, ' ', "");
  }

  predicate LineEnd(eol: string) {
    eol == "\n" || eol == "\r\n"
  }

  lemma StripLineEnd(eol: string)
    requires LineEnd(eol)
    ensures Strip(eol) == ""
  {
    assert eol == "\n" ==> Strip(eol) == "";
    if eol == "\r\n" {
      assert eol == "\r" + "\n";
      StripConcat("\r", "\n");
      ReplaceAllAbsent("\r", '\n', "");
    }
  }

  lemma StripLine(line: string, eol: string)
    requires Strip(eol) == "" && '-' !in eol
    requires forall c | c in line :: IsBase64(c)
    ensures Strip(line + eol) == line
    ensures '-' !in line + eol
  {
    StripClean(line);
    StripConcat(line, eol);
  }

  lemma {:induction false} StripWrap(body: string, width: nat, eol: string)
    requires width > 0 && Strip(eol) == "" && '-' !in eol
    requires forall c | c in body :: IsBase64(c)
    ensures Strip(Wrap(body, width, eol)) == body
    ensures '-' !in Wrap(body, width, eol)
    decreases |body|
  {
    if body == "" {
    } else if |body| <= width {
      StripLine(body, eol);
    } else {
      var line, rest := body[..width], body[width..];
      assert body == line + rest;
      StripWrap(rest, width, eol) by {
        assert forall c | c in rest :: c in body;
      }
      StripLine(line, eol) by {
        assert forall c | c in line :: c in body;
      }
      StripConcat(line + eol, Wrap(rest, width, eol));
    }
  }

  /** Whatever the line width and line ending, only the body survives. */
  lemma StripUndoesEncode(body: string, width: nat, eol: string)
    requires width > 0 && LineEnd(eol)
    requires forall c | c in body :: IsBase64(c)
    ensures StripPemHeaders(Encode(body, width, eol)) == body
  {
    StripLineEnd(eol);
    StripWrap(body, width, eol);
    var text := eol + Wrap(body, width, eol);
    var s := Encode(body, width, eol);
    assert s[0..|BEGIN|] == BEGIN;
    assert OccursAt(s, BEGIN, 0);
    assert s[|BEGIN|..] == text + (END + eol);
    IndexAfterText(text, END, eol);
    assert (text + (END + eol))[..|text|] == text;
    StripConcat(eol, Wrap(body, width, eol));
  }

  lemma StripRemovesWhitespace(s: string)
    ensures '\n' !in Strip(s) && '\r' !in Strip(s) && ' ' !in Strip(s)
  {
    var noLf := ReplaceAll(s, '\n', "");
    var noCr := ReplaceAll(noLf, '\r', "");
    ReplaceAllDeletes(s, '\n');
    ReplaceAllDeletes(noLf, '\r');
    ReplaceAllDeletes(noCr, ' ');
  }

  /** Stripping a key that is already stripped changes nothing, whatever the text was. */
  lemma StripIdempotent(s: string)
    ensures StripPemHeaders(StripPemHeaders(s)) == StripPemHeaders(s)
  {
    StripRemovesWhitespace(Unmarked(s));
    var r := StripPemHeaders(s);
    IndexAbsent(r, BEGIN, 10);
    IndexAbsent(r, END, 8);
    StripClean(r);
  }
}
