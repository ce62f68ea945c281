/** Functions on texts that several models use. */
module Texts {
  import opened Basics

  /** Insignificant whitespace, section 2 of RFC 8259. */
  predicate IsWs(c: char) { c == ' ' || c == '\t' || c == '\n' || c == '\r' }

  /** What `\s` of a JavaScript regular expression matches. */
  predicate IsSpace(c: char) {
    || IsWs(c) || c == '\U{000B}' || c == '\U{000C}' || c == '\U{00A0}' || c == '\U{1680}'
    || '\U{2000}' <= c <= '\U{200A}' || c == '\U{2028}' || c == '\U{2029}' || c == '\U{202F}' || c == '\U{205F}'
    || c == '\U{3000}' || c == '\U{FEFF}'
  }

  function Prepend(s: string, r: Option<string>): Option<string> {
    match r
    case None => None
    case Some(x) => Some(s + x)
  }

  /** Every occurrence of one character replaced by a text. */
  function Replace(s: string, c: char, t: string): string {
    if |s| == 0 then "" else (if s[0] == c then t else [s[0]]) + Replace(s[1..], c, t)
  }

  /** CR LF and a CR alone both become one LF. */
  function LineEnds(s: string): string {
    if |s| == 0 then ""
    else if s[0] == '\r' then
      "\n" + if |s| > 1 && s[1] == '\n' then LineEnds(s[2..]) else LineEnds(s[1..])
    else [s[0]] + LineEnds(s[1..])
  }
}
