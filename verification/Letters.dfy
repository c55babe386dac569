/** What a letter's subject and body are cleaned to before they are stored:
    cleanLetter of internal/store/messages.go and Clean of internal/term/text.go. */
module Letters {
  import opened Text
  import opened Charsets

  const MAX_SUBJECT_LEN := 60
  const MAX_BODY_BYTES := 0x4000

  predicate IsControl(c: char) { c as int < 0x20 || 0x7F <= c as int < 0xA0 }

  predicate IsBidiControl(c: char) {
    c == '\U{061C}' || '\U{200E}' <= c <= '\U{200F}' || '\U{202A}' <= c <= '\U{202E}' || '\U{2066}' <= c <= '\U{2069}'
  }

  predicate IsStripped(c: char) { c == '\U{FFFD}' || IsControl(c) || IsBidiControl(c) }

  function StripControl(s: string): (r: string)
    ensures forall i :: 0 <= i < |r| ==> !IsStripped(r[i])
  {
    if s == "" then "" else (if IsStripped(s[0]) then "" else [s[0]]) + StripControl(s[1..])
  }

  function Truncate(s: string, n: nat): (r: string)
    ensures |r| <= n
  {
    if |s| <= n then s else s[..n]
  }

  function Clean(s: string, max: nat): (r: string)
    ensures |r| <= max
  {
    Truncate(TrimText(StripControl(s)), max)
  }

  function TrimEndChar(s: string, c: char): string {
    if s != "" && s[|s| - 1] == c then TrimEndChar(s[..|s| - 1], c) else s
  }

  function TrimChar(s: string, c: char): string {
    if s != "" && s[0] == c then TrimChar(s[1..], c) else TrimEndChar(s, c)
  }

  function CleanLines(lines: seq<string>): seq<string> {
    if lines == [] then [] else [TrimEndChar(StripControl(lines[0]), ' ')] + CleanLines(lines[1..])
  }

  function CleanBody(body: string): string {
    TrimChar(Join(CleanLines(Split(JoinCrLf(body), '\n')), '\n'), '\n')
  }

  datatype Cleaned = NoSubject | NoBody | TooLong | Letter(subject: string, body: string)

  function CleanLetter(subject: string, body: string): (r: Cleaned)
    ensures r.Letter? ==> r.subject != "" && |r.subject| <= MAX_SUBJECT_LEN && r.body != "" && |Encode(r.body, UTF8)| <= MAX_BODY_BYTES
  {
    var s, b := Clean(subject, MAX_SUBJECT_LEN), CleanBody(body);
    if s == "" then NoSubject
    else if b == "" then NoBody
    else if |Encode(b, UTF8)| > MAX_BODY_BYTES then TooLong
    else Letter(s, b)
  }
}
