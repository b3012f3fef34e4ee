/** How the command line reads values that were edited by hand: comments, quotes and exported names. */
module GoDotenvReading {
  import opened JsStrings
  import opened GoDotenv
  import opened GoDotenvProofs

  // ------------------------------------------------------------ comments

  predicate IsBlank(c: char) {
    c == ' ' || c == '\t'
  }

  predicate HasNoQuote(s: string) {
    '"' !in s && '\'' !in s
  }

  /** No number sign of the text stands behind a space or a tab. */
  predicate NoCommentIn(s: string) {
    forall i :: 0 < i < |s| && s[i] == '#' ==> !IsBlank(s[i - 1])
  }

  lemma {:induction false} ScanBare(done: string, rest: string, tail: string)
    requires HasNoQuote(rest) && NoCommentIn(done + rest)
    ensures StripComment(done, rest + tail, None, false) == StripComment(done + rest, tail, None, false)
    decreases |rest|
  {
    if rest == [] {
      assert rest + tail == tail && done + rest == done;
    } else {
      var c := rest[0];
      assert c in rest && c != '"' && c != '\'';
      assert (rest + tail)[1..] == rest[1..] + tail;
      assert (done + [c]) + rest[1..] == done + rest;
      assert (done + rest)[|done|] == c;
      assert done != [] ==> (done + rest)[|done| - 1] == done[|done| - 1];
      ScanBare(done + [c], rest[1..], tail);
    }
  }

  /** Outside quotes a number sign behind a blank begins a comment, and no other does. */
  lemma BareComments(front: string, comment: string)
    requires HasNoQuote(front) && NoCommentIn(front)
    ensures StripInlineComment(front) == front
    ensures front != [] && IsBlank(front[|front| - 1]) ==>
              StripInlineComment(front + (['#'] + comment)) == TrimSpace(front)
  {
    hide TrimSpace;
    assert [] + front == front && front + [] == front;
    ScanBare([], front, []);
    ScanBare([], front, ['#'] + comment);
  }

  lemma {:induction false} ScanSingleQuoted(done: string, body: string, tail: string)
    requires '\'' !in body
    ensures StripComment(done, body + (['\''] + tail), Some('\''), false)
         == StripComment(done + (body + ['\'']), tail, None, false)
    decreases |body|
  {
    if body == [] {
      assert body + (['\''] + tail) == ['\''] + tail && (['\''] + tail)[1..] == tail;
      assert body + ['\''] == ['\''];
    } else {
      var c := body[0];
      assert c in body;
      assert (body + (['\''] + tail))[1..] == body[1..] + (['\''] + tail);
      assert (done + [c]) + (body[1..] + ['\'']) == done + (body + ['\'']);
      ScanSingleQuoted(done + [c], body[1..], tail);
    }
  }

  lemma SingleQuotedStays(body: string)
    requires '\'' !in body
    ensures StripInlineComment(['\''] + (body + ['\''])) == ['\''] + (body + ['\''])
  {
    var s := ['\''] + (body + ['\'']);
    assert s[1..] == body + (['\''] + []);
    ScanSingleQuoted(['\''], body, []);
    assert [] + ['\''] == ['\''];
    assert StripComment([], s, None, false) == StripComment(['\''], s[1..], Some('\''), false);
  }

  // ------------------------------------------------------------ quotes

  /** A value between double quotes is unquoted, or cut out if that fails; one between single quotes is cut out. */
  lemma UnquotesExactly(q: Quoting, quote: char, body: string)
    requires quote == '"' || quote == '\''
    ensures var text := [quote] + (body + [quote]);
            UnquoteEnv(q, text) == if quote == '"' && q.unquote(text).Some? then q.unquote(text).value else body
  {
    var text := [quote] + (body + [quote]);
    assert text[0] == quote && text[|text| - 1] == quote && text[1..|text| - 1] == body;
    QuoteIsNotSpace();
    EndsTrimmed(text);
  }

  lemma QuoteIsNotSpace()
    ensures !IsGoSpace('"') && !IsGoSpace('\'')
  {}

  lemma EndsTrimmed(text: string)
    requires text != [] && !IsGoSpace(text[0]) && !IsGoSpace(text[|text| - 1])
    ensures TrimSpace(text) == text
  {}

  /** A value with other ends is taken without the white space around it. */
  lemma BareIsTrimmed(q: Quoting, text: string)
    requires TrimSpace(text) == [] || (TrimSpace(text)[0] != '"' && TrimSpace(text)[0] != '\'')
    ensures UnquoteEnv(q, text) == TrimSpace(text)
  {
    hide TrimSpace;
  }

  // ------------------------------------------------------------ lines

  /** Blank lines, comments and lines without an equals sign assign nothing. */
  lemma OtherLines(q: Quoting, line: string)
    requires TrimSpace(line) == [] || TrimSpace(line)[0] == '#' || '=' !in TrimSpace(line)
    ensures ParseLine(q, line) == None
  {
    hide TrimSpace;
    var trimmed := TrimSpace(line);
    if '=' !in trimmed {
      assert trimmed[..|trimmed|] == trimmed;
      FindIs(trimmed, '=', |trimmed|);
    }
  }

  /** The name in front of the first equals sign, without the word that exports it, is given what is behind. */
  lemma AssignmentLines(q: Quoting, line: string, name: string, value: string)
    requires TrimSpace(line) == name + (['='] + value) && '=' !in name && (name == [] || name[0] != '#')
    ensures ParseLine(q, line)
         == Some((TrimSpace(if "export " <= name then name[7..] else name), UnquoteEnv(q, TrimSpace(StripInlineComment(value)))))
  {
    hide TrimSpace, UnquoteEnv, StripInlineComment;
    CutAt(name, '=', value);
    var trimmed := TrimSpace(line);
    assert trimmed != [] && trimmed[0] == if name == [] then '=' else name[0];
  }
}
