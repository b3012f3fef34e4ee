/** Which settings of a rendered environment file are read back. */
module GoDotenvProofs {
  import opened JsStrings
  import opened GoDotenv

  // ------------------------------------------------------------ trimming and cutting

  lemma TrimSpaceIdentity(s: string)
    requires s != [] && !IsGoSpace(s[0]) && !IsGoSpace(s[|s| - 1])
    ensures TrimSpace(s) == s
  {}

  lemma {:induction false} TrimRightPrefix(s: string)
    ensures TrimRight(s) <= s
    ensures TrimRight(s) != [] ==> !IsGoSpace(TrimRight(s)[|TrimRight(s)| - 1])
    decreases |s|
  {
    hide IsGoSpace;
    if s != [] && IsGoSpace(s[|s| - 1]) {
      TrimRightPrefix(s[..|s| - 1]);
    }
  }

  lemma {:induction false} FindIs(s: string, c: char, k: nat)
    requires k <= |s| && c !in s[..k] && (k < |s| ==> s[k] == c)
    ensures Find(s, c) == k
    decreases |s|
  {
    if k > 0 {
      assert s[..k][0] == s[0];
      assert s[1..][..k - 1] == s[..k][1..];
      FindIs(s[1..], c, k - 1);
    }
  }

  lemma CutAt(a: string, c: char, b: string)
    requires c !in a
    ensures Cut(a + ([c] + b), c) == Some((a, b))
  {
    hide Find;
    var s := a + ([c] + b);
    assert s[..|a|] == a && s[|a| + 1..] == b;
    FindIs(s, c, |a|);
  }

  lemma {:induction false} TrimRightConcat(front: string, back: string)
    requires TrimRight(back) != []
    ensures TrimRight(front + back) == front + TrimRight(back)
    decreases |back|
  {
    hide IsGoSpace;
    var s := front + back;
    if IsGoSpace(back[|back| - 1]) {
      assert s[..|s| - 1] == front + back[..|back| - 1];
      TrimRightConcat(front, back[..|back| - 1]);
    }
  }

  lemma {:induction false} TrimRightKeeps(s: string, i: nat)
    requires i < |s| && !IsGoSpace(s[i])
    ensures |TrimRight(s)| > i
    decreases |s|
  {
    hide IsGoSpace;
    if IsGoSpace(s[|s| - 1]) {
      TrimRightKeeps(s[..|s| - 1], i);
    }
  }

  lemma {:induction false} TrimLeftSuffix(s: string)
    ensures forall c :: c in TrimLeft(s) ==> c in s
  {
    hide IsGoSpace;
    if s != [] && IsGoSpace(s[0]) {
      TrimLeftSuffix(s[1..]);
    }
  }

  lemma TrimKeeps(s: string)
    ensures forall c :: c in TrimSpace(s) ==> c in s
  {
    hide TrimLeft, TrimRight;
    TrimLeftSuffix(s);
    TrimRightPrefix(TrimLeft(s));
    assert forall i :: 0 <= i < |TrimSpace(s)| ==> TrimSpace(s)[i] == TrimLeft(s)[i];
  }

  lemma {:induction false} TrimLeftIsSuffix(s: string)
    ensures |TrimLeft(s)| <= |s| && TrimLeft(s) == s[|s| - |TrimLeft(s)|..]
    ensures TrimLeft(s) != [] ==> !IsGoSpace(TrimLeft(s)[0])
    decreases |s|
  {
    hide IsGoSpace;
    if s != [] && IsGoSpace(s[0]) {
      TrimLeftIsSuffix(s[1..]);
    }
  }

  lemma TrimSpaceEnds(s: string)
    ensures TrimSpace(s) != [] ==> !IsGoSpace(TrimSpace(s)[0]) && !IsGoSpace(TrimSpace(s)[|TrimSpace(s)| - 1])
    ensures s != [] ==> (TrimSpace(s) == s <==> !IsGoSpace(s[0]) && !IsGoSpace(s[|s| - 1]))
  {
    hide IsGoSpace, TrimLeft, TrimRight;
    TrimLeftIsSuffix(s);
    TrimRightPrefix(TrimLeft(s));
    if s != [] && !IsGoSpace(s[0]) && !IsGoSpace(s[|s| - 1]) {
      TrimSpaceStays(s);
    }
  }

  lemma TrimSpaceStays(s: string)
    requires s != [] && !IsGoSpace(s[0]) && !IsGoSpace(s[|s| - 1])
    ensures TrimSpace(s) == s
  {}

  lemma TrimSpaceTwice(s: string)
    ensures TrimSpace(TrimSpace(s)) == TrimSpace(s)
  {
    hide IsGoSpace, TrimLeft, TrimRight;
    TrimSpaceEnds(s);
    if TrimSpace(s) == [] {
      NothingToTrim();
    } else {
      TrimSpaceEnds(TrimSpace(s));
    }
  }

  lemma NothingToTrim()
    ensures TrimSpace([]) == [] && TrimRight([]) == []
  {}

  lemma {:induction false} TrimRightFirst(s: string)
    ensures TrimSpace(TrimRight(s)) == TrimSpace(s)
    decreases |s|
  {
    if s != [] && IsGoSpace(s[|s| - 1]) {
      TrimRightFirst(s[..|s| - 1]);
      TrimEndFirst(s);
    }
  }

  /** A blank at the end makes no difference. */
  lemma {:induction false} TrimEndFirst(s: string)
    requires s != [] && IsGoSpace(s[|s| - 1])
    ensures TrimSpace(s[..|s| - 1]) == TrimSpace(s)
    decreases |s|
  {
    hide IsGoSpace, TrimRight;
    var front := s[..|s| - 1];
    if IsGoSpace(s[0]) {
      if |s| > 1 {
        TrimEndFirst(s[1..]);
        assert s[1..][..|s| - 2] == front[1..];
      } else {
        assert s[1..] == [] && front == [];
      }
    } else {
      TrimRightBlank(s);
    }
  }

  lemma TrimRightBlank(s: string)
    requires s != [] && IsGoSpace(s[|s| - 1])
    ensures TrimRight(s) == TrimRight(s[..|s| - 1])
  {}

  // ------------------------------------------------------------ lines

  lemma FindConcat(a: string, b: string)
    ensures '\n' !in a ==> Find(a + (['\n'] + b), '\n') == |a| && Find(a, '\n') == |a|
    ensures '\n' in a ==> Find(a + (['\n'] + b), '\n') == Find(a, '\n') < |a|
  {
    hide Find;
    var s, m := a + (['\n'] + b), Find(a, '\n');
    assert s[..|a|] == a && a[..|a|] == a && s[..m] == a[..m];
    if '\n' in a {
      FindIs(s, '\n', m);
    } else {
      FindIs(s, '\n', |a|);
      FindIs(a, '\n', |a|);
    }
  }

  lemma SplitLast(s: string)
    requires Find(s, '\n') == |s|
    ensures SplitLines(s) == [s]
  {
    hide Find;
  }

  lemma SplitMore(s: string, n: nat)
    requires Find(s, '\n') == n < |s|
    ensures SplitLines(s) == [s[..n]] + SplitLines(s[n + 1..])
  {
    hide Find;
  }

  lemma {:induction false} SplitConcat(a: string, b: string)
    ensures SplitLines(a + (['\n'] + b)) == SplitLines(a) + SplitLines(b)
    decreases |a|
  {
    hide Find, SplitLines;
    FindConcat(a, b);
    var s, n := a + (['\n'] + b), Find(a, '\n');
    SplitMore(s, n);
    assert s[..n] == a[..n];
    if '\n' in a {
      SplitMore(a, n);
      assert s[n + 1..] == a[n + 1..] + (['\n'] + b);
      SplitConcat(a[n + 1..], b);
      assert [a[..n]] + (SplitLines(a[n + 1..]) + SplitLines(b)) == ([a[..n]] + SplitLines(a[n + 1..])) + SplitLines(b);
    } else {
      SplitLast(a);
      assert a[..n] == a && s[n + 1..] == b;
    }
  }

  lemma {:induction false} ParseLinesConcat(q: Quoting, env: Env, a: seq<string>, b: seq<string>)
    ensures ParseLines(q, env, a + b) == ParseLines(q, ParseLines(q, env, a), b)
    decreases |a|
  {
    hide Put;
    if a == [] {
      assert a + b == b;
    } else {
      assert (a + b)[1..] == a[1..] + b;
      ParseLinesConcat(q, Put(q, env, a[0]), a[1..], b);
    }
  }

  lemma {:induction false} StripPlain(done: string, rest: string)
    requires '#' !in rest && '"' !in rest && '\'' !in rest
    ensures StripComment(done, rest, None, false) == done + rest
    decreases |rest|
  {
    if rest == [] {
      assert done + rest == done;
    } else {
      assert rest[0] in rest;
      StripPlain(done + [rest[0]], rest[1..]);
      assert (done + [rest[0]]) + rest[1..] == done + rest;
    }
  }

  // ------------------------------------------------------------ quoted values

  lemma ScanPlain(done: string, c: char, rest: string)
    requires c != '"' && c != '\\'
    ensures StripComment(done, [c] + rest, Some('"'), false) == StripComment(done + [c], rest, Some('"'), false)
  {
    assert ([c] + rest)[1..] == rest;
  }

  lemma ScanEscape(done: string, c: char, rest: string)
    ensures StripComment(done, ['\\'] + ([c] + rest), Some('"'), false)
         == StripComment((done + ['\\']) + [c], rest, Some('"'), false)
  {
    assert (['\\'] + ([c] + rest))[1..] == [c] + rest && ([c] + rest)[1..] == rest;
    assert StripComment(done, ['\\'] + ([c] + rest), Some('"'), false)
        == StripComment(done + ['\\'], [c] + rest, Some('"'), true);
  }

  lemma ScanEnd(done: string)
    ensures StripComment(done, ['"'], Some('"'), false) == done + ['"']
  {
    assert ['"'][1..] == [];
  }

  lemma {:induction false} ScanQuoted(done: string, body: string)
    requires EscapedBody(body)
    ensures StripComment(done, body + ['"'], Some('"'), false) == done + (body + ['"'])
    decreases |body|
  {
    hide StripComment;
    if body == [] {
      assert body + ['"'] == ['"'];
      ScanEnd(done);
    } else if body[0] == '\\' {
      var c, rest := body[1], body[2..] + ['"'];
      assert body + ['"'] == ['\\'] + ([c] + rest);
      ScanEscape(done, c, rest);
      ScanQuoted((done + ['\\']) + [c], body[2..]);
      assert ((done + ['\\']) + [c]) + rest == done + (body + ['"']);
    } else {
      var c, rest := body[0], body[1..] + ['"'];
      assert body + ['"'] == [c] + rest;
      ScanPlain(done, c, rest);
      ScanQuoted(done + [c], body[1..]);
      assert (done + [c]) + rest == done + (body + ['"']);
    }
  }

  lemma {:induction false} BodyHasNoBreak(s: string)
    requires EscapedBody(s)
    ensures '\n' !in s
    decreases |s|
  {
    if s != [] {
      if s[0] == '\\' {
        BodyHasNoBreak(s[2..]);
        assert s == [s[0], s[1]] + s[2..];
      } else {
        BodyHasNoBreak(s[1..]);
        assert s == [s[0]] + s[1..];
      }
    }
  }

  /** The scan for a comment finds none in a quoted string. */
  lemma QuotedHasNoComment(s: string)
    requires |s| >= 2 && s[0] == '"' && s[|s| - 1] == '"' && EscapedBody(s[1..|s| - 1])
    ensures StripInlineComment(s) == s && '\n' !in s
  {
    hide IsGoSpace, EscapedBody;
    var body := s[1..|s| - 1];
    assert s == ['"'] + (body + ['"']) && s[1..] == body + ['"'];
    ScanQuoted(['"'], body);
    BodyHasNoBreak(body);
    assert StripComment([], s, None, false) == StripComment(['"'], s[1..], Some('"'), false) by { assert [] + ['"'] == ['"']; }
  }

  lemma DocumentedFor(q: Quoting, value: string)
    requires Documented(q)
    ensures var s := q.quote(value);
            && |s| >= 2 && s[0] == '"' && s[|s| - 1] == '"' && EscapedBody(s[1..|s| - 1])
            && q.unquote(s) == Some(value)
  {}

  lemma QuoteIsNoSpace()
    ensures !IsGoSpace('"')
  {}

  /** Every quoted value is read back. */
  lemma QuotedReads(q: Quoting, value: string)
    requires Documented(q) && (value == [] || NeedsQuotes(value))
    ensures var s := QuoteEnv(q, value);
            && '\n' !in s && TrimRight(s) == s && UnquoteEnv(q, TrimSpace(StripInlineComment(s))) == value
  {
    hide NeedsQuotes, IsGoSpace, EscapedBody, Documented;
    var s := QuoteEnv(q, value);
    if value == [] {
      EmptyQuotes(q);
    } else {
      DocumentedFor(q, value);
    }
    QuotedHasNoComment(s);
    QuoteIsNoSpace();
    TrimSpaceIdentity(s);
    NothingOnRight(s);
  }

  lemma EmptyQuotes(q: Quoting)
    requires Documented(q)
    ensures q.unquote(['"', '"']) == Some([]) && EscapedBody(['"', '"'][1..1])
  {}

  lemma NothingOnRight(s: string)
    requires s != [] && !IsGoSpace(s[|s| - 1])
    ensures TrimRight(s) == s
  {}

  // ------------------------------------------------------------ one entry

  /** The shape of a setting's name. */
  predicate IsKey(k: string) {
    k != [] && '=' !in k && '\n' !in k && 'A' <= k[0] <= 'Z' && ' ' < k[|k| - 1] < '{'
  }

  lemma KeyEnds(k: string)
    requires IsKey(k)
    ensures !IsGoSpace(k[0]) && !IsGoSpace(k[|k| - 1]) && k[0] != '#' && TrimSpace(TrimExport(k)) == k
  {
    assert k[0] != EXPORT[0];
    TrimSpaceIdentity(k);
  }

  lemma TrimmedLine(k: string, x: string)
    requires IsKey(k)
    ensures TrimSpace(k + (['='] + x)) == k + (['='] + TrimRight(x))
  {
    hide IsGoSpace, TrimRight, IsKey;
    KeyEnds(k);
    assert k != [] by { KeyIsNotEmpty(k); }
    var front := k + ['='];
    assert front + x == k + (['='] + x) && front + TrimRight(x) == k + (['='] + TrimRight(x));
    assert TrimLeft(front + x) == front + x;
    if TrimRight(x) == [] {
      TrimRightAll(front, x);
      assert front + [] == front;
    } else {
      TrimRightConcat(front, x);
    }
  }

  lemma KeyIsNotEmpty(k: string)
    requires IsKey(k)
    ensures k != [] && '=' !in k
  {}

  lemma {:induction false} TrimRightAll(front: string, x: string)
    requires TrimRight(x) == [] && front != [] && front[|front| - 1] == '='
    ensures TrimRight(front + x) == front
    decreases |x|
  {
    if x == [] {
      assert front + x == front;
    } else {
      assert (front + x)[..|front + x| - 1] == front + x[..|x| - 1];
      TrimRightAll(front, x[..|x| - 1]);
    }
  }

  /** What a line with a setting's name assigns. */
  lemma EntryParses(q: Quoting, k: string, x: string)
    requires IsKey(k)
    ensures ParseLine(q, k + (['='] + x)) == Some((k, UnquoteEnv(q, TrimSpace(StripInlineComment(TrimRight(x))))))
  {
    hide IsGoSpace, UnquoteEnv, StripInlineComment, TrimRight, TrimLeft, TrimSpace, Cut, TrimExport, IsKey;
    KeyEnds(k);
    KeyIsNotEmpty(k);
    TrimmedLine(k, x);
    CutAt(k, '=', TrimRight(x));
  }

  lemma BareHasNone(x: string, kept: string)
    requires !NeedsQuotes(x) && forall c :: c in kept ==> c in x
    ensures '#' !in kept && '"' !in kept && '\'' !in kept
  {}

  lemma PlainComment(kept: string)
    requires '#' !in kept && '"' !in kept && '\'' !in kept
    ensures StripInlineComment(kept) == kept
  {
    hide StripComment;
    StripPlain([], kept);
    assert [] + kept == kept;
  }

  lemma PlainUnquote(q: Quoting, text: string)
    requires '"' !in TrimSpace(text) && '\'' !in TrimSpace(text)
    ensures UnquoteEnv(q, text) == TrimSpace(text)
  {
    hide TrimSpace;
    assert TrimSpace(text) != [] ==> TrimSpace(text)[0] in TrimSpace(text);
  }

  /** A bare value is read without the blanks at its ends. */
  lemma BareReads(q: Quoting, x: string)
    requires !NeedsQuotes(x)
    ensures UnquoteEnv(q, TrimSpace(StripInlineComment(TrimRight(x)))) == TrimSpace(x)
  {
    hide IsGoSpace, TrimSpace, TrimRight, NeedsQuotes, StripInlineComment, UnquoteEnv;
    TrimRightPrefix(x);
    BareHasNone(x, TrimRight(x));
    PlainComment(TrimRight(x));
    TrimRightFirst(x);
    TrimSpaceTwice(x);
    TrimKeeps(x);
    BareHasNone(x, TrimSpace(x));
    PlainUnquote(q, TrimSpace(x));
  }

  // ------------------------------------------------------------ the last assignment decides

  function Get(env: Env, key: string): Option<string> {
    if key in env then Some(env[key]) else None
  }

  function Assigned(q: Quoting, line: string, key: string): Option<string> {
    match ParseLine(q, line)
    case None => None
    case Some((k, value)) => if k == key then Some(value) else None
  }

  /** The second value, or else the first. */
  function Or(first: Option<string>, second: Option<string>): Option<string> {
    if second.Some? then second else first
  }

  function LastOf(q: Quoting, lines: seq<string>, key: string): Option<string>
    decreases |lines|
  {
    if lines == [] then None else Or(Assigned(q, lines[0], key), LastOf(q, lines[1..], key))
  }

  lemma {:induction false} ParseAt(q: Quoting, env: Env, lines: seq<string>, key: string)
    ensures Get(ParseLines(q, env, lines), key) == Or(Get(env, key), LastOf(q, lines, key))
    decreases |lines|
  {
    hide ParseLine;
    if lines != [] {
      ParseAt(q, Put(q, env, lines[0]), lines[1..], key);
    }
  }

  lemma {:induction false} LastOfConcat(q: Quoting, a: seq<string>, b: seq<string>, key: string)
    ensures LastOf(q, a + b, key) == Or(LastOf(q, a, key), LastOf(q, b, key))
    decreases |a|
  {
    hide Assigned;
    if a == [] {
      assert a + b == b;
    } else {
      assert (a + b)[1..] == a[1..] + b;
      LastOfConcat(q, a[1..], b, key);
    }
  }

  lemma LastOfCons(q: Quoting, line: string, rest: seq<string>, key: string)
    ensures LastOf(q, [line] + rest, key) == Or(Assigned(q, line, key), LastOf(q, rest, key))
  {
    hide Assigned;
    assert ([line] + rest)[1..] == rest;
  }

  // ------------------------------------------------------------ values that break their line

  /** The lines behind the first one that a value takes up: a bare value is written with its line feeds. */
  function Extra(value: string): seq<string> {
    if value == [] || NeedsQuotes(value) then [] else SplitLines(value)[1..]
  }

  /** The lines of a file that belong to no setting. */
  function ExtraLines(table: Table): seq<string>
    decreases |table|
  {
    if table == [] then [] else Extra(table[0].1) + ExtraLines(table[1..])
  }

  lemma SplitPrefix(p: string, v: string)
    requires '\n' !in p
    ensures SplitLines(p + v) == [p + SplitLines(v)[0]] + SplitLines(v)[1..]
  {
    hide Find;
    var n := Find(v, '\n');
    assert (p + v)[..|p| + n] == p + v[..n];
    FindIs(p + v, '\n', |p| + n);
    if n < |v| {
      assert (p + v)[|p| + n + 1..] == v[n + 1..];
    } else {
      assert v[..n] == v;
    }
  }

  lemma SplitOne(s: string)
    requires '\n' !in s
    ensures SplitLines(s) == [s]
  {
    assert s[..|s|] == s;
    FindIs(s, '\n', |s|);
  }

  /** The part of a value that is on its setting's line. */
  function Head(q: Quoting, value: string): string {
    SplitLines(QuoteEnv(q, value))[0]
  }

  lemma EntryLines(q: Quoting, entry: (string, string))
    requires Documented(q) && IsKey(entry.0)
    ensures SplitLines(Line(q, entry)) == [entry.0 + (['='] + Head(q, entry.1))] + Extra(entry.1)
  {
    hide Documented, NeedsQuotes, SplitLines, StripInlineComment, UnquoteEnv, TrimRight, IsGoSpace;
    var (k, v) := entry;
    var p := k + ['='];
    assert Line(q, entry) == p + QuoteEnv(q, v);
    assert '\n' !in p;
    SplitPrefix(p, QuoteEnv(q, v));
    assert p + Head(q, v) == k + (['='] + Head(q, v));
    if v == [] || NeedsQuotes(v) {
      QuotedReads(q, v);
      SplitOne(QuoteEnv(q, v));
      assert [QuoteEnv(q, v)][1..] == [];
    }
  }

  /** The lines of a rendered file. */
  function FileLines(q: Quoting, table: Table): seq<string>
    decreases |table|
  {
    if table == [] then [[]] else SplitLines(Line(q, table[0])) + FileLines(q, table[1..])
  }

  lemma {:induction false} RenderSplit(q: Quoting, table: Table)
    ensures SplitLines(Render(q, table)) == FileLines(q, table)
    decreases |table|
  {
    hide SplitLines, Line;
    if table == [] {
      SplitOne([]);
    } else {
      RenderSplit(q, table[1..]);
      SplitConcat(Line(q, table[0]), Render(q, table[1..]));
    }
  }

  lemma {:induction false} FileLinesConcat(q: Quoting, a: Table, b: Table)
    ensures exists front :: FileLines(q, a + b) == front + FileLines(q, b)
    decreases |a|
  {
    hide SplitLines, Line;
    if a == [] {
      assert a + b == b;
      assert FileLines(q, a + b) == [] + FileLines(q, b);
    } else {
      FileLinesConcat(q, a[1..], b);
      var front :| FileLines(q, a[1..] + b) == front + FileLines(q, b);
      assert (a + b)[1..] == a[1..] + b;
      assert SplitLines(Line(q, a[0])) + (front + FileLines(q, b)) == (SplitLines(Line(q, a[0])) + front) + FileLines(q, b);
    }
  }

  /** The settings have names, and none has this one. */
  ghost predicate Lacks(table: Table, key: string) {
    forall i :: 0 <= i < |table| ==> IsKey(table[i].0) && table[i].0 != key
  }

  /** What other settings say about a key is in the lines that belong to none of them. */
  lemma {:induction false} OthersSay(q: Quoting, table: Table, key: string)
    requires Documented(q) && Lacks(table, key)
    ensures LastOf(q, FileLines(q, table), key) == LastOf(q, ExtraLines(table), key)
    decreases |table|
  {
    hide Documented, Assigned, SplitLines, Line, Extra, LastOf, IsKey, Head;
    if table == [] {
      EmptyLine(q, key);
    } else {
      var k, v, rest := table[0].0, table[0].1, table[1..];
      assert IsKey(k) && k != key;
      assert Lacks(rest, key) by {
        assert forall i :: 0 <= i < |rest| ==> rest[i] == table[i + 1];
      }
      OthersSay(q, rest, key);
      EntryLines(q, table[0]);
      OtherEntry(q, k, Head(q, v), key);
      LastOfConcat(q, SplitLines(Line(q, table[0])), FileLines(q, rest), key);
      LastOfCons(q, k + (['='] + Head(q, v)), Extra(v), key);
      LastOfConcat(q, Extra(v), ExtraLines(rest), key);
    }
  }

  lemma EmptyLine(q: Quoting, key: string)
    ensures LastOf(q, [[]], key) == None == LastOf(q, [], key)
  {
    NothingToTrim();
    var lines: seq<string> := [[]];
    assert lines[1..] == [];
  }

  lemma OtherEntry(q: Quoting, k: string, x: string, key: string)
    requires IsKey(k) && k != key
    ensures Assigned(q, k + (['='] + x), key) == None
  {
    hide UnquoteEnv, StripInlineComment, TrimRight, IsKey, ParseLine;
    EntryParses(q, k, x);
  }

  /** The value of a setting as its own lines have it. */
  function OwnValue(q: Quoting, key: string, value: string): string {
    match LastOf(q, Extra(value), key)
    case Some(x) => x
    case None => UnquoteEnv(q, TrimSpace(StripInlineComment(TrimRight(Head(q, value)))))
  }

  /** What is read for a setting: what a later setting brings along, or else its own value. */
  lemma FileValue(q: Quoting, before: Table, key: string, value: string, behind: Table)
    requires Documented(q) && IsKey(key) && Lacks(behind, key)
    ensures Get(ParseEnvContent(q, Render(q, before + ([(key, value)] + behind))), key)
         == match LastOf(q, ExtraLines(behind), key)
            case Some(x) => Some(x)
            case None => Some(OwnValue(q, key, value))
  {
    hide Documented, Assigned, SplitLines, Line, Extra, LastOf, IsKey, Head, FileLines, UnquoteEnv, StripInlineComment,
         TrimRight, ParseLines, ParseLine, Lacks, TrimSpace;
    var table := [(key, value)] + behind;
    var line := key + (['='] + Head(q, value));
    RenderSplit(q, before + table);
    ParseAt(q, map[], SplitLines(Render(q, before + table)), key);
    FileLinesConcat(q, before, table);
    var front :| FileLines(q, before + table) == front + FileLines(q, table);
    LastOfConcat(q, front, FileLines(q, table), key);
    FileLinesCons(q, (key, value), behind);
    EntryLines(q, (key, value));
    LastOfConcat(q, [line] + Extra(value), FileLines(q, behind), key);
    LastOfCons(q, line, Extra(value), key);
    OthersSay(q, behind, key);
    EntryParses(q, key, Head(q, value));
    assert Assigned(q, line, key) == Some(UnquoteEnv(q, TrimSpace(StripInlineComment(TrimRight(Head(q, value)))))) by {
      AssignedBy(q, line, key);
    }
  }

  lemma AssignedBy(q: Quoting, line: string, key: string)
    ensures ParseLine(q, line).Some? && ParseLine(q, line).value.0 == key ==>
              Assigned(q, line, key) == Some(ParseLine(q, line).value.1)
  {
    hide ParseLine;
  }

  lemma FileLinesCons(q: Quoting, entry: (string, string), rest: Table)
    ensures FileLines(q, [entry] + rest) == SplitLines(Line(q, entry)) + FileLines(q, rest)
  {
    hide SplitLines, Line;
    assert ([entry] + rest)[1..] == rest;
  }

  // ------------------------------------------------------------ which values are read back

  /** The values that a line of their own can hold. */
  predicate Held(value: string) {
    value == [] || NeedsQuotes(value) || ('\n' !in value && !IsGoSpace(value[0]) && !IsGoSpace(value[|value| - 1]))
  }

  /** Lacks quotes in the line, its value is a part of it. */
  lemma PlainValueIsInLine(q: Quoting, line: string)
    requires '\n' !in line && '"' !in line
    ensures ParseLine(q, line).Some? ==> '\n' !in ParseLine(q, line).value.1
  {
    hide IsGoSpace, TrimExport, Find;
    var trimmed := TrimSpace(line);
    TrimKeeps(line);
    if Cut(trimmed, '=').Some? {
      var value := Cut(trimmed, '=').value.1;
      assert forall c :: c in value ==> c in trimmed;
      StripKeeps([], value, None, false);
      TrimKeeps(StripInlineComment(value));
      TrimKeeps(TrimSpace(StripInlineComment(value)));
    }
  }

  lemma {:induction false} StripKeeps(done: string, rest: string, quote: Option<char>, escaped: bool)
    ensures forall c :: c in StripComment(done, rest, quote, escaped) ==> c in done || c in rest
    decreases |rest|
  {
    hide TrimSpace;
    TrimKeeps(done);
    if rest != [] {
      var next := done + [rest[0]];
      assert forall c :: c in next ==> c in done || c in rest;
      StripKeeps(next, rest[1..], None, false);
      StripKeeps(next, rest[1..], Some(rest[0]), false);
      StripKeeps(next, rest[1..], quote, false);
      StripKeeps(next, rest[1..], quote, true);
    }
  }

  lemma {:induction false} SplitKeeps(text: string)
    ensures forall i :: 0 <= i < |SplitLines(text)| ==>
              '\n' !in SplitLines(text)[i] && forall c :: c in SplitLines(text)[i] ==> c in text
    decreases |text|
  {
    hide Find;
    var n := Find(text, '\n');
    if n < |text| {
      SplitKeeps(text[n + 1..]);
      var rest := SplitLines(text[n + 1..]);
      assert forall i :: 1 <= i < |SplitLines(text)| ==> SplitLines(text)[i] == rest[i - 1];
    } else {
      assert text[..n] == text;
    }
  }

  lemma {:induction false} BareLinesHaveNoBreak(q: Quoting, lines: seq<string>, key: string)
    requires forall i :: 0 <= i < |lines| ==> '\n' !in lines[i] && '"' !in lines[i]
    ensures LastOf(q, lines, key).Some? ==> '\n' !in LastOf(q, lines, key).value
    decreases |lines|
  {
    hide ParseLine;
    if lines != [] {
      PlainValueIsInLine(q, lines[0]);
      BareLinesHaveNoBreak(q, lines[1..], key);
    }
  }

  lemma BareHead(q: Quoting, value: string)
    requires value != [] && !NeedsQuotes(value)
    ensures Head(q, value) == SplitLines(value)[0] && !NeedsQuotes(Head(q, value)) && '\n' !in Head(q, value)
    ensures '\n' !in value ==> Head(q, value) == value && Extra(value) == []
  {
    hide Find, SplitLines;
    SplitKeeps(value);
    assert QuoteEnv(q, value) == value;
    if '\n' !in value {
      SplitOne(value);
      assert [value][1..] == [];
    }
  }

  /** What a bare value is read as: without a line feed, whatever it held, and otherwise trimmed. */
  lemma BareValue(q: Quoting, key: string, value: string)
    requires value != [] && !NeedsQuotes(value)
    ensures '\n' !in OwnValue(q, key, value)
    ensures '\n' !in value ==> OwnValue(q, key, value) == TrimSpace(value)
  {
    hide NeedsQuotes, SplitLines, IsGoSpace, UnquoteEnv, StripInlineComment, TrimRight, TrimSpace, Head, LastOf;
    var head := Head(q, value);
    BareHead(q, value);
    BareReads(q, head);
    TrimKeeps(head);
    ExtraIsBare(value);
    BareLinesHaveNoBreak(q, Extra(value), key);
    if '\n' !in value {
      EmptyLine(q, key);
    }
  }

  lemma ExtraIsBare(value: string)
    ensures forall i :: 0 <= i < |Extra(value)| ==> '\n' !in Extra(value)[i] && '"' !in Extra(value)[i]
  {
    hide SplitLines;
    SplitKeeps(value);
    assert forall i :: 0 <= i < |SplitLines(value)| - 1 ==> SplitLines(value)[1..][i] == SplitLines(value)[i + 1];
  }

  lemma OwnQuoted(q: Quoting, key: string, value: string)
    requires Documented(q) && (value == [] || NeedsQuotes(value))
    ensures OwnValue(q, key, value) == value
  {
    hide Documented, NeedsQuotes, SplitLines, UnquoteEnv, StripInlineComment, TrimRight, TrimSpace, QuoteEnv;
    QuotedReads(q, value);
    SplitOne(QuoteEnv(q, value));
    EmptyLine(q, key);
  }

  /** A value is read back from its own lines if and only if a line can hold it. */
  lemma OwnValueIsHeld(q: Quoting, key: string, value: string)
    requires Documented(q)
    ensures OwnValue(q, key, value) == value <==> Held(value)
  {
    hide Documented, NeedsQuotes, IsGoSpace, OwnValue, TrimSpace;
    if value == [] || NeedsQuotes(value) {
      OwnQuoted(q, key, value);
    } else {
      BareValue(q, key, value);
      TrimSpaceEnds(value);
    }
  }

  /**
   A setting of a rendered file is read back if and only if a line can hold
   its value and no later value breaks its line with an assignment of it, or
   the last such assignment happens to be of the same value.
   */
  lemma SettingReadsBack(q: Quoting, before: Table, key: string, value: string, behind: Table)
    requires Documented(q) && IsKey(key) && Lacks(behind, key)
    ensures Get(ParseEnvContent(q, Render(q, before + ([(key, value)] + behind))), key) == Some(value)
       <==> match LastOf(q, ExtraLines(behind), key)
            case Some(x) => x == value
            case None => Held(value)
  {
    hide Documented, IsKey, Lacks, Held, OwnValue, ParseEnvContent, Render, LastOf, ExtraLines;
    FileValue(q, before, key, value, behind);
    OwnValueIsHeld(q, key, value);
  }

  // ------------------------------------------------------------ the API key

  lemma KeyShape()
    ensures IsKey(API_KEYS) && LAUNCHER == LAUNCHER[..8] + [':'] && ':' !in LAUNCHER[..8] && '\n' !in LAUNCHER
    ensures |LAUNCHER| == 9 && !IsGoSpace(LAUNCHER[0]) && !IsGoSpace(LAUNCHER[8]) && LAUNCHER[8] == ':'
  {}

  /** The secrets that survive being written and read: those that are quoted, and those a bare line can hold. */
  predicate Survives(secret: string) {
    NeedsQuotes(LAUNCHER + secret) || ('\n' !in secret && (secret == [] || !IsGoSpace(secret[|secret| - 1])))
  }

  lemma KeyInLauncher(secret: string)
    ensures KeyIn(LAUNCHER + secret) == secret
  {
    hide LAUNCHER;
    KeyShape();
    CutAt(LAUNCHER[..8], ':', secret);
    assert LAUNCHER[..8] + ([':'] + secret) == LAUNCHER + secret;
  }

  lemma KeyIsPart(value: string)
    ensures forall c :: c in KeyIn(value) ==> c in value
  {
    hide Find;
  }

  /** The key in a bare value that is read without the blanks at its end. */
  lemma TrimmedKey(secret: string)
    requires secret != [] && IsGoSpace(secret[|secret| - 1])
    ensures KeyIn(TrimSpace(LAUNCHER + secret)) != secret
  {
    hide LAUNCHER, IsGoSpace, KeyIn, TrimRight;
    KeyShape();
    var value := LAUNCHER + secret;
    assert value[0] == LAUNCHER[0] && value[8] == LAUNCHER[8] && value[|value| - 1] == secret[|secret| - 1];
    assert TrimLeft(value) == value;
    var kept := TrimRight(value);
    TrimRightPrefix(value);
    TrimRightKeeps(value, 8);
    assert |kept| < |value|;
    assert kept == LAUNCHER + kept[9..];
    KeyInLauncher(kept[9..]);
  }

  /** The key that is read from the file's own line. */
  lemma OwnKey(q: Quoting, secret: string)
    requires Documented(q)
    ensures KeyIn(OwnValue(q, API_KEYS, LAUNCHER + secret)) == secret <==> Survives(secret)
  {
    hide Documented, NeedsQuotes, IsGoSpace, OwnValue, TrimSpace, KeyIn, LAUNCHER, API_KEYS;
    var value := LAUNCHER + secret;
    KeyShape();
    KeyInLauncher(secret);
    if NeedsQuotes(value) {
      OwnQuoted(q, API_KEYS, value);
    } else {
      assert value != [];
      BareValue(q, API_KEYS, value);
      KeyIsPart(OwnValue(q, API_KEYS, value));
      if '\n' !in secret {
        if secret != [] && IsGoSpace(secret[|secret| - 1]) {
          TrimmedKey(secret);
        } else {
          assert value[0] == LAUNCHER[0];
          assert secret == [] ==> value == LAUNCHER;
          TrimSpaceEnds(value);
        }
      }
    }
  }

  /**
   The secret that is read from a rendered file is the one written, if and only
   if it is quoted, or free of line feeds and of white space at its end, and no
   later value breaks its line with an assignment of another key.
   */
  lemma ApiKeyRoundTrip(q: Quoting, before: Table, secret: string, behind: Table)
    requires Documented(q) && Lacks(behind, API_KEYS)
    ensures ApiKey(ParseEnvContent(q, Render(q, before + ([(API_KEYS, LAUNCHER + secret)] + behind)))) == secret
       <==> match LastOf(q, ExtraLines(behind), API_KEYS)
            case Some(x) => KeyIn(x) == secret
            case None => Survives(secret)
  {
    hide Documented, IsKey, Lacks, Survives, OwnValue, ParseEnvContent, Render, LastOf, ExtraLines, LAUNCHER, API_KEYS,
         KeyIn;
    KeyShape();
    FileValue(q, before, API_KEYS, LAUNCHER + secret, behind);
    OwnKey(q, secret);
  }
}
