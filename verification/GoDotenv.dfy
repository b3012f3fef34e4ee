/**
 The environment files of the Code Execution instances, as
 cmd/omlorix-server-cli writes and reads them. Texts are valid UTF-8.
 */
module GoDotenv {
  import opened JsStrings

  /** The pair strconv.Quote and strconv.Unquote; None stands for an error. */
  datatype Quoting = Quoting(quote: string -> string, unquote: string -> Option<string>)

  predicate IsGoSpace(c: char) {
    || '\t' <= c <= '\r' || c == ' ' || c == '\U{85}' || c == '\U{A0}' || c == '\U{1680}'
    || '\U{2000}' <= c <= '\U{200A}' || c == '\U{2028}' || c == '\U{2029}' || c == '\U{202F}' || c == '\U{205F}'
    || c == '\U{3000}'
  }

  function TrimRight(s: string): string {
    if s != [] && IsGoSpace(s[|s| - 1]) then TrimRight(s[..|s| - 1]) else s
  }

  function TrimLeft(s: string): string {
    if s != [] && IsGoSpace(s[0]) then TrimLeft(s[1..]) else s
  }

  function TrimSpace(s: string): string {
    TrimRight(TrimLeft(s))
  }

  function Find(s: string, c: char): (n: nat)
    ensures n <= |s| && c !in s[..n] && (n < |s| ==> s[n] == c)
  {
    if s == [] || s[0] == c then 0
    else
      assert s[..Find(s[1..], c) + 1] == [s[0]] + s[1..][..Find(s[1..], c)];
      Find(s[1..], c) + 1
  }

  /** The part behind the first `c`, None when there is none. */
  function Cut(s: string, c: char): Option<(string, string)> {
    var n := Find(s, c);
    if n == |s| then None else Some((s[..n], s[n + 1..]))
  }

  function SplitLines(s: string): (lines: seq<string>)
    ensures lines != []
    decreases |s|
  {
    var n := Find(s, '\n');
    if n == |s| then [s] else [s[..n]] + SplitLines(s[n + 1..])
  }

  // ------------------------------------------------------------ values

  /** The scan of stripInlineComment; `previous` is None at the start. */
  function StripComment(done: string, rest: string, quote: Option<char>, escaped: bool): string
    decreases |rest|
  {
    if rest == [] then done
    else
      var c := rest[0];
      var next := done + [c];
      if escaped then StripComment(next, rest[1..], quote, false)
      else if c == '\\' && quote == Some('"') then StripComment(next, rest[1..], quote, true)
      else if c == '"' || c == '\'' then
        StripComment(next, rest[1..], if quote.None? then Some(c) else if quote == Some(c) then None else quote, false)
      else if c == '#' && quote.None? && done != [] && (done[|done| - 1] == ' ' || done[|done| - 1] == '\t') then
        TrimSpace(done)
      else StripComment(next, rest[1..], quote, false)
  }

  function StripInlineComment(value: string): string {
    StripComment([], value, None, false)
  }

  function UnquoteEnv(q: Quoting, text: string): string {
    var value := TrimSpace(text);
    if |value| >= 2 && value[0] == '"' && value[|value| - 1] == '"' then
      match q.unquote(value)
      case Some(decoded) => decoded
      case None => value[1..|value| - 1]
    else if |value| >= 2 && value[0] == '\'' && value[|value| - 1] == '\'' then value[1..|value| - 1]
    else value
  }

  predicate NeedsQuotes(value: string) {
    ' ' in value || '\t' in value || '#' in value || '"' in value || '\'' in value
  }

  function QuoteEnv(q: Quoting, value: string): string {
    if value == [] then ['"', '"'] else if NeedsQuotes(value) then q.quote(value) else value
  }

  const EXPORT := "export "

  function TrimExport(key: string): string {
    if EXPORT <= key then key[|EXPORT|..] else key
  }

  /** The entry a line defines. */
  function ParseLine(q: Quoting, line: string): Option<(string, string)> {
    var trimmed := TrimSpace(line);
    if trimmed == [] || trimmed[0] == '#' then None
    else
      match Cut(trimmed, '=')
      case None => None
      case Some((key, value)) => Some((TrimSpace(TrimExport(key)), UnquoteEnv(q, TrimSpace(StripInlineComment(value)))))
  }

  type Env = map<string, string>

  function Put(q: Quoting, env: Env, line: string): Env {
    match ParseLine(q, line)
    case None => env
    case Some((key, value)) => env[key := value]
  }

  function ParseLines(q: Quoting, env: Env, lines: seq<string>): Env
    decreases |lines|
  {
    if lines == [] then env else ParseLines(q, Put(q, env, lines[0]), lines[1..])
  }

  function ParseEnvContent(q: Quoting, raw: string): Env {
    ParseLines(q, map[], SplitLines(raw))
  }

  method ReadEnv(q: Quoting, raw: string) returns (values: Env)
    ensures values == ParseEnvContent(q, raw)
  {
    hide ParseLine;
    values := map[];
    var lines := SplitLines(raw);
    for i := 0 to |lines|
      invariant ParseLines(q, map[], lines) == ParseLines(q, values, lines[i..])
    {
      assert lines[i..][1..] == lines[i + 1..];
      var parsed := ParseLine(q, lines[i]);
      if parsed.Some? {
        values := values[parsed.value.0 := parsed.value.1];
      }
    }
  }

  // ------------------------------------------------------------ the API key

  const API_KEYS := "API_KEYS"

  const LAUNCHER := "launcher:"

  function Lookup(env: Env, key: string): string {
    if key in env then env[key] else []
  }

  /** Everything behind the first colon. */
  function KeyIn(value: string): string {
    match Cut(value, ':')
    case None => []
    case Some((_, secret)) => secret
  }

  function ApiKey(env: Env): string {
    KeyIn(Lookup(env, API_KEYS))
  }

  // ------------------------------------------------------------ rendering

  /** The settings of a file, in the order of its lines. */
  type Table = seq<(string, string)>

  function Line(q: Quoting, entry: (string, string)): string {
    entry.0 + (['='] + QuoteEnv(q, entry.1))
  }

  /** The lines joined, with a line feed at the end. */
  function Render(q: Quoting, table: Table): string
    decreases |table|
  {
    if table == [] then [] else Line(q, table[0]) + (['\n'] + Render(q, table[1..]))
  }

  /** The inside of a quoted string: no bare quote and no line feed, and no backslash without a character behind it. */
  predicate EscapedBody(s: string)
    decreases |s|
  {
    if s == [] then true
    else if s[0] == '\\' then |s| >= 2 && s[1] != '\n' && EscapedBody(s[2..])
    else s[0] != '"' && s[0] != '\n' && EscapedBody(s[1..])
  }

  /** What Go documents about quoting: a quoted string on one line, which is unquoted to the text it came from. */
  ghost predicate Documented(q: Quoting) {
    && (forall value ::
          var s := q.quote(value);
          && |s| >= 2 && s[0] == '"' && s[|s| - 1] == '"' && EscapedBody(s[1..|s| - 1])
          && q.unquote(s) == Some(value))
    && q.unquote(['"', '"']) == Some([])
  }
}
