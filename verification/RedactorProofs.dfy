/** What the streaming redactor guarantees over every way of splitting a text into chunks. */
module RedactorProofs {
  import opened JsStrings
  import opened LogRedactor

  /** All `push` outputs and the final pending text, starting from `pending`. */
  function PushAll(secrets: seq<JsString>, pending: JsString, chunks: seq<JsString>): (r: (seq<Token>, JsString))
    requires Alternatives(secrets)
    decreases |chunks|
  {
    if chunks == [] then ([], pending)
    else
      var text := pending + chunks[0];
      var later := PushAll(secrets, PushRetained(secrets, text), chunks[1..]);
      (PushOutput(secrets, text) + later.0, later.1)
  }

  /** Everything a fresh redactor emits for the chunks, `flush` included. */
  function Stream(secrets: seq<JsString>, chunks: seq<JsString>): seq<Token>
    requires Alternatives(secrets)
  {
    var pushed := PushAll(secrets, [], chunks);
    pushed.0 + FlushOutput(secrets, pushed.1)
  }

  function Concat(chunks: seq<JsString>): JsString {
    if chunks == [] then [] else chunks[0] + Concat(chunks[1..])
  }

  /** No secret occurs inside another one except at its very end. */
  ghost predicate NoEarlyOccurrence(secrets: seq<JsString>) {
    forall s, t, i :: s in secrets && t in secrets && 0 <= i < |t| - |s| ==> !(s <= t[i..])
  }

  /** No secret occurs anywhere inside another one. */
  ghost predicate NoneInsideAnother(secrets: seq<JsString>) {
    forall s, t, i :: s in secrets && t in secrets && s != t && 0 <= i <= |t| - |s| ==> !(s <= t[i..])
  }

  // ------------------------------------------------------------ chunking does not matter

  lemma EarlyOccurrence(secrets: seq<JsString>, s: JsString, t: JsString, i: nat)
    requires NoEarlyOccurrence(secrets) && s in secrets && t in secrets
    ensures i < |t| - |s| ==> !(s <= t[i..])
  {}

  lemma PrefixOfConcat(t: JsString, p: JsString, q: JsString, i: nat, n: nat)
    requires i + n <= |p|
    ensures t <= p + q && |t| <= |p| ==> t <= p
    ensures t <= p + q && i + n <= |t| ==> p[i..][..n] <= t[i..]
  {}

  lemma MatchIsLongest(secrets: seq<JsString>, text: JsString, s: JsString)
    requires Alternatives(secrets) && s in secrets && s <= text
    requires forall t :: t in secrets && t <= text ==> |t| <= |s|
    ensures MatchLength(secrets, text) == |s|
  {
    LongestMatch(secrets, text);
    var n := MatchLength(secrets, text);
    assert text[..n] <= text;
  }

  lemma NoMatch(secrets: seq<JsString>, text: JsString)
    requires Alternatives(secrets)
    ensures MatchLength(secrets, text) == 0 <==> forall t :: t in secrets ==> !(t <= text)
  {
    LongestMatch(secrets, text);
    var n := MatchLength(secrets, text);
    assert text[..n] <= text;
  }

  /** A match already visible in `p` is neither lost nor lengthened by later text. */
  lemma MatchStable(secrets: seq<JsString>, p: JsString, q: JsString, j: nat)
    requires Alternatives(secrets) && NoEarlyOccurrence(secrets)
    requires j <= |p| && MatchesAt(secrets, p, j)
    ensures MatchLength(secrets, (p + q)[j..]) == MatchLength(secrets, p[j..]) && MatchesAt(secrets, p + q, j)
  {
    hide MatchLength;
    LongestMatch(secrets, p[j..]);
    var n := MatchLength(secrets, p[j..]);
    var s := p[j..][..n];
    assert (p + q)[j..] == p[j..] + q;
    forall t | t in secrets && t <= (p + q)[j..]
      ensures |t| <= |s|
    {
      PrefixOfConcat(t, p[j..], q, 0, n);
      EarlyOccurrence(secrets, s, t, 0);
    }
    MatchIsLongest(secrets, (p + q)[j..], s);
  }

  /** Later text adds no match in front of one that is already visible. */
  lemma NoEarlierMatch(secrets: seq<JsString>, p: JsString, q: JsString, j: nat, i: nat)
    requires Alternatives(secrets) && NoEarlyOccurrence(secrets)
    requires j < i <= |p| && MatchesAt(secrets, p, i) && !MatchesAt(secrets, p, j)
    ensures !MatchesAt(secrets, p + q, j)
  {
    hide MatchLength;
    LongestMatch(secrets, p[i..]);
    NoMatch(secrets, p[j..]);
    var n := MatchLength(secrets, p[i..]);
    var s := p[i..][..n];
    assert (p + q)[j..] == p[j..] + q && p[j..][i - j..] == p[i..];
    forall t | t in secrets
      ensures !(t <= (p + q)[j..])
    {
      PrefixOfConcat(t, p[j..], q, i - j, n);
      EarlyOccurrence(secrets, s, t, i - j);
    }
    NoMatch(secrets, (p + q)[j..]);
  }

  lemma {:induction false} RedactSkip(secrets: seq<JsString>, text: JsString, from: nat, to: nat)
    requires Alternatives(secrets) && from <= to <= |text|
    requires forall j :: from <= j < to ==> !MatchesAt(secrets, text, j)
    ensures Redact(secrets, text[from..]) == Lits(text[from..to]) + Redact(secrets, text[to..])
    decreases |text| - from
  {
    hide MatchLength;
    if from == to {
      assert Lits(text[from..to]) == [];
    } else {
      assert !MatchesAt(secrets, text, from);
      RedactSkip(secrets, text, from + 1, to);
      assert text[from..][1..] == text[from + 1..];
      assert Lits(text[from..to]) == [Lit(text[from])] + Lits(text[from + 1..to]);
    }
  }

  /** The match loop over `p` is the beginning of the one-shot redaction of `p + q`. */
  lemma {:induction false} ScanIsRedact(secrets: seq<JsString>, p: JsString, q: JsString, cursor: nat)
    requires Alternatives(secrets) && NoEarlyOccurrence(secrets) && cursor <= |p|
    ensures Redact(secrets, (p + q)[cursor..])
         == ScanOutput(secrets, p, cursor) + Redact(secrets, (p + q)[ScanEnd(secrets, p, cursor)..])
    decreases |p| - cursor
  {
    hide MatchLength, NextMatch, ScanOutput, ScanEnd, Redact, Alternatives, NoEarlyOccurrence, MatchesAt, Lits;
    var i := NextMatch(secrets, p, cursor);
    if i < |p| {
      var n := MatchLength(secrets, p[i..]);
      forall j | cursor <= j < i
        ensures !MatchesAt(secrets, p + q, j)
      {
        NoEarlierMatch(secrets, p, q, j, i);
      }
      RedactSkip(secrets, p + q, cursor, i);
      MatchStable(secrets, p, q, i);
      RedactMatch(secrets, p + q, i);
      assert (p + q)[cursor..i] == p[cursor..i];
      ScanIsRedact(secrets, p, q, i + n);
      ScanUnfold(secrets, p, cursor);
      Associate(Lits(p[cursor..i]), [Redacted], ScanOutput(secrets, p, i + n),
                Redact(secrets, (p + q)[ScanEnd(secrets, p, i + n)..]));
    } else {
      ScanStop(secrets, p, cursor, []);
    }
  }

  lemma Associate(a: seq<Token>, b: seq<Token>, c: seq<Token>, d: seq<Token>)
    ensures a + (b + (c + d)) == (a + (b + c)) + d
  {}

  lemma RedactMatch(secrets: seq<JsString>, text: JsString, i: nat)
    requires Alternatives(secrets) && i < |text| && MatchesAt(secrets, text, i)
    ensures Redact(secrets, text[i..]) == [Redacted] + Redact(secrets, text[i + MatchLength(secrets, text[i..])..])
  {
    hide MatchLength;
    var n := MatchLength(secrets, text[i..]);
    assert text[i..][n..] == text[i + n..];
  }

  lemma {:induction false} ScanRestHasNoMatch(secrets: seq<JsString>, text: JsString, cursor: nat)
    requires Alternatives(secrets) && cursor <= |text|
    ensures forall j :: ScanEnd(secrets, text, cursor) <= j < |text| ==> !MatchesAt(secrets, text, j)
    ensures ScanOutput(secrets, text, cursor) == [] ==> ScanEnd(secrets, text, cursor) == cursor
    decreases |text| - cursor
  {
    hide MatchLength, NextMatch;
    var i := NextMatch(secrets, text, cursor);
    if i < |text| {
      ScanRestHasNoMatch(secrets, text, i + MatchLength(secrets, text[i..]));
    }
  }

  /** Text that is emitted unmatched cannot begin a secret, whatever follows. */
  lemma EmittedIsDead(secrets: seq<JsString>, rest: JsString, d: nat, s: JsString)
    requires Alternatives(secrets) && s in secrets
    requires d < EmitLength(secrets, rest) && !MatchesAt(secrets, rest, d)
    ensures !(s <= rest[d..]) && !(rest[d..] <= s)
  {
    hide MatchLength, RetainedLength;
    LongestMatch(secrets, rest[d..]);
    LongerIsNotKept(secrets, rest, |rest| - d);
    assert Suffix(rest, |rest| - d) == rest[d..];
  }

  lemma EmittedNeverMatches(secrets: seq<JsString>, rest: JsString, q: JsString, j: nat)
    requires Alternatives(secrets) && j < EmitLength(secrets, rest) && !MatchesAt(secrets, rest, j)
    ensures !MatchesAt(secrets, rest + q, j)
  {
    hide MatchLength, EmitLength;
    assert (rest + q)[j..] == rest[j..] + q;
    forall t | t in secrets
      ensures !(t <= (rest + q)[j..])
    {
      EmittedIsDead(secrets, rest, j, t);
      PrefixOfConcat(t, rest[j..], q, 0, |rest| - j);
      assert rest[j..][0..] == rest[j..] && rest[j..][..|rest| - j] == rest[j..];
    }
    NoMatch(secrets, (rest + q)[j..]);
  }

  /** What one push emits of the text after the last match never matches, whatever follows. */
  lemma EmittedIsPlain(secrets: seq<JsString>, p: JsString, q: JsString, j: nat)
    requires Alternatives(secrets) && j < EmitLength(secrets, ScanRest(secrets, p))
    ensures !MatchesAt(secrets, ScanRest(secrets, p) + q, j)
  {
    hide MatchLength, ScanEnd, EmitLength;
    var end, rest := ScanEnd(secrets, p, 0), ScanRest(secrets, p);
    ScanRestHasNoMatch(secrets, p, 0);
    assert rest[j..] == p[end + j..];
    assert !MatchesAt(secrets, p, end + j);
    EmittedNeverMatches(secrets, rest, q, j);
  }

  lemma PushIsRedact(secrets: seq<JsString>, p: JsString, q: JsString)
    requires Alternatives(secrets) && NoEarlyOccurrence(secrets)
    ensures Redact(secrets, p + q) == PushOutput(secrets, p) + Redact(secrets, PushRetained(secrets, p) + q)
  {
    hide MatchesAt, ScanOutput, ScanEnd, EmitLength, Redact, NoEarlyOccurrence, Alternatives;
    var end := ScanEnd(secrets, p, 0);
    var rest := ScanRest(secrets, p);
    var emit := EmitLength(secrets, rest);
    ScanIsRedact(secrets, p, q, 0);
    assert (p + q)[0..] == p + q;
    assert (p + q)[end..] == rest + q;
    forall j | 0 <= j < emit
      ensures !MatchesAt(secrets, rest + q, j)
    {
      EmittedIsPlain(secrets, p, q, j);
    }
    RedactSkip(secrets, rest + q, 0, emit);
    assert (rest + q)[0..] == rest + q;
    assert (rest + q)[0..emit] == rest[..emit];
    assert (rest + q)[emit..] == rest[emit..] + q;
  }

  lemma PushAllCons(secrets: seq<JsString>, pending: JsString, chunk: JsString, chunks: seq<JsString>)
    requires Alternatives(secrets)
    ensures var text := pending + chunk;
            var later := PushAll(secrets, PushRetained(secrets, text), chunks);
            PushAll(secrets, pending, [chunk] + chunks) == (PushOutput(secrets, text) + later.0, later.1)
  {
    hide Alternatives, PushOutput, PushRetained;
    assert ([chunk] + chunks)[1..] == chunks;
  }

  lemma ConcatCons(chunk: JsString, chunks: seq<JsString>)
    ensures Concat([chunk] + chunks) == chunk + Concat(chunks)
  {
    assert ([chunk] + chunks)[1..] == chunks;
  }

  lemma {:induction false} PushAllIsRedact(secrets: seq<JsString>, pending: JsString, chunks: seq<JsString>)
    requires Alternatives(secrets) && NoEarlyOccurrence(secrets)
    ensures var pushed := PushAll(secrets, pending, chunks);
            pushed.0 + FlushOutput(secrets, pushed.1) == Redact(secrets, pending + Concat(chunks))
    decreases |chunks|
  {
    hide PushOutput, PushRetained, FlushOutput, Redact, Alternatives, NoEarlyOccurrence;
    if chunks == [] {
      FlushIsRedact(secrets, pending);
      assert pending + [] == pending;
      assert [] + FlushOutput(secrets, pending) == FlushOutput(secrets, pending);
    } else {
      hide PushAll, Concat;
      var chunk, rest := chunks[0], chunks[1..];
      assert chunks == [chunk] + rest;
      PushAllCons(secrets, pending, chunk, rest);
      ConcatCons(chunk, rest);
      var text := pending + chunk;
      PushAllIsRedact(secrets, PushRetained(secrets, text), rest);
      PushIsRedact(secrets, text, Concat(rest));
      assert pending + (chunk + Concat(rest)) == text + Concat(rest);
      var later := PushAll(secrets, PushRetained(secrets, text), rest);
      assert (PushOutput(secrets, text) + later.0) + FlushOutput(secrets, later.1)
          == PushOutput(secrets, text) + (later.0 + FlushOutput(secrets, later.1));
    }
  }

  /** Redaction of one complete text by the machine needs no hypothesis on the secrets. */
  lemma {:induction false} ScanAllIsRedact(secrets: seq<JsString>, text: JsString, cursor: nat)
    requires Alternatives(secrets) && cursor <= |text|
    ensures ScanOutput(secrets, text, cursor) + Lits(text[ScanEnd(secrets, text, cursor)..])
         == Redact(secrets, text[cursor..])
    decreases |text| - cursor
  {
    hide MatchLength, NextMatch, ScanOutput, ScanEnd, Redact;
    var i := NextMatch(secrets, text, cursor);
    RedactSkip(secrets, text, cursor, i);
    if i < |text| {
      var n := MatchLength(secrets, text[i..]);
      ScanAllIsRedact(secrets, text, i + n);
      ScanUnfold(secrets, text, cursor);
      RedactMatch(secrets, text, i);
      Associate(Lits(text[cursor..i]), [Redacted], ScanOutput(secrets, text, i + n),
                Lits(text[ScanEnd(secrets, text, i + n)..]));
    } else {
      ScanStop(secrets, text, cursor, []);
      assert text[cursor..|text|] == text[cursor..];
      assert text[|text|..] == [];
      RedactEmpty(secrets);
    }
  }

  lemma RedactEmpty(secrets: seq<JsString>)
    requires Alternatives(secrets)
    ensures Redact(secrets, []) == []
  {}

  lemma FlushIsRedact(secrets: seq<JsString>, text: JsString)
    requires Alternatives(secrets)
    ensures FlushOutput(secrets, text) == Redact(secrets, text)
  {
    ScanAllIsRedact(secrets, text, 0);
    assert text[0..] == text;
  }

  lemma {:induction false} PushThenFlushEmits(secrets: seq<JsString>, text: JsString)
    requires Alternatives(secrets) && text != []
    ensures Redact(secrets, text) != []
  {
  }

  lemma ConcatTwo(p: JsString, q: JsString)
    ensures Concat([p, q]) == p + q
  {
    assert [p, q][1..] == [q] && [q][1..] == [];
    assert Concat([q]) == q + Concat([]) == q;
  }

  /** If a secret occurs early inside another, cutting the text behind the inner one changes the output. */
  lemma EarlyOccurrenceBreaksChunking(secrets: seq<JsString>, s: JsString, t: JsString, i: nat)
    requires Alternatives(secrets) && s in secrets && t in secrets && i < |t| - |s| && s <= t[i..]
    ensures var cut := i + |s|;
            Stream(secrets, [t[..cut], t[cut..]]) != Redact(secrets, Concat([t[..cut], t[cut..]]))
  {
    hide ScanOutput, ScanEnd, EmitLength;
    var cut := i + |s|;
    var p, q := t[..cut], t[cut..];
    ConcatTwo(p, q);
    assert p + q == t;
    MatchIsLongest(secrets, t, t);
    assert t[|t|..] == [] && Redact(secrets, t) == [Redacted] + Redact(secrets, []);
    // The first push already emits a mark ...
    assert MatchesAt(secrets, p, i) by {
      assert s <= p[i..];
      NoMatch(secrets, p[i..]);
    }
    assert [] + p == p && [p, q][1..] == [q];
    ScanFindsMatch(secrets, p, i);
    // ... and the rest of the text still has to come out.
    var kept := PushRetained(secrets, p);
    PushThenFlush(secrets, kept, q);
    var later := PushAll(secrets, kept, [q]);
    assert Stream(secrets, [p, q]) == (PushOutput(secrets, p) + later.0) + FlushOutput(secrets, later.1);
  }

  lemma ScanFindsMatch(secrets: seq<JsString>, text: JsString, i: nat)
    requires Alternatives(secrets) && i < |text| && MatchesAt(secrets, text, i)
    ensures ScanOutput(secrets, text, 0) != []
  {}

  lemma PushThenFlush(secrets: seq<JsString>, kept: JsString, q: JsString)
    requires Alternatives(secrets) && q != []
    ensures var later := PushAll(secrets, kept, [q]);
            later.0 + FlushOutput(secrets, later.1) != []
  {
    hide ScanEnd, ScanOutput;
    var text := kept + q;
    assert [q][1..] == [];
    var later := PushAll(secrets, kept, [q]);
    assert PushAll(secrets, PushRetained(secrets, text), []) == ([], PushRetained(secrets, text));
    assert later == (PushOutput(secrets, text) + [], PushRetained(secrets, text));
    var rest := ScanRest(secrets, text);
    ScanRestHasNoMatch(secrets, text, 0);
    if PushOutput(secrets, text) == [] {
      assert rest == text && |later.1| == |text|;
      FlushIsRedact(secrets, later.1);
      PushThenFlushEmits(secrets, later.1);
    }
  }

  /** Chunking is invisible for every text exactly when no secret occurs early inside another. */
  lemma ChunkingInvisible(secrets: seq<JsString>)
    requires Alternatives(secrets)
    ensures (forall chunks :: Stream(secrets, chunks) == Redact(secrets, Concat(chunks)))
       <==> NoEarlyOccurrence(secrets)
  {
    hide Redact, Stream, Concat, Alternatives;
    if NoEarlyOccurrence(secrets) {
      forall chunks
        ensures Stream(secrets, chunks) == Redact(secrets, Concat(chunks))
      {
        StreamIsRedact(secrets, chunks);
      }
    } else {
      var s, t, i :| s in secrets && t in secrets && 0 <= i < |t| - |s| && s <= t[i..];
      EarlyOccurrenceBreaksChunking(secrets, s, t, i);
    }
  }

  lemma StreamIsRedact(secrets: seq<JsString>, chunks: seq<JsString>)
    requires Alternatives(secrets) && NoEarlyOccurrence(secrets)
    ensures Stream(secrets, chunks) == Redact(secrets, Concat(chunks))
  {
    hide Redact, PushAll, FlushOutput;
    PushAllIsRedact(secrets, [], chunks);
    assert [] + Concat(chunks) == Concat(chunks);
  }

  /** In particular for secrets none of which occurs inside another. */
  lemma ChunkingInvisibleWhenUnrelated(secrets: seq<JsString>, chunks: seq<JsString>)
    requires Alternatives(secrets) && NoneInsideAnother(secrets)
    ensures Stream(secrets, chunks) == Redact(secrets, Concat(chunks))
  {
    hide Alternatives, Stream, Redact, Concat;
    assert NoEarlyOccurrence(secrets) by {
      forall s, t, i | s in secrets && t in secrets && 0 <= i < |t| - |s|
        ensures !(s <= t[i..])
      {
        assert s != t;
      }
    }
    StreamIsRedact(secrets, chunks);
  }

  /** The hypothesis matters: `abcde` and `bc`, pushed as `abc` and `de`. */
  lemma ChunkingVisibleExample()
    ensures var secrets := [Js("abcde"), Js("bc")];
            && Alternatives(secrets)
            && Stream(secrets, [Js("abc"), Js("de")]) != Redact(secrets, Concat([Js("abc"), Js("de")]))
  {
    hide Stream, Redact, Concat;
    var s, t := Js("bc"), Js("abcde");
    assert s[0] == t[1..][0] && s[1] == t[1..][1];
    EarlyOccurrenceBreaksChunking([t, s], s, t, 1);
    assert t[..3] == Js("abc") && t[3..] == Js("de");
  }

  // ------------------------------------------------------------ safety without any hypothesis

  /** As far as `tokens` reaches, it spells `s` literally from `at` on. */
  ghost predicate Compatible(s: JsString, tokens: seq<Token>, at: nat) {
    forall k :: 0 <= k < |s| && at + k < |tokens| ==> tokens[at + k] == Lit(s[k])
  }

  ghost predicate OccursAt(s: JsString, tokens: seq<Token>, at: nat) {
    at + |s| <= |tokens| && Compatible(s, tokens, at)
  }

  /** No secret occurs in the tokens starting inside `output`. */
  ghost predicate Safe(secrets: seq<JsString>, output: seq<Token>, rest: JsString) {
    forall s, at :: s in secrets && 0 <= at < |output| ==> !OccursAt(s, output + Lits(rest), at)
  }

  /** No secret can start inside `output`, whatever text follows `rest`. */
  ghost predicate Dead(secrets: seq<JsString>, output: seq<Token>, rest: JsString) {
    forall s, at :: s in secrets && 0 <= at < |output| ==> !Compatible(s, output + Lits(rest), at)
  }

  /** No run of literals between two marks contains a secret. */
  ghost predicate NoLiteralSecret(secrets: seq<JsString>, output: seq<Token>) {
    forall s, at :: s in secrets && 0 <= at ==> !OccursAt(s, output, at)
  }

  lemma DeadStaysSafe(secrets: seq<JsString>, output: seq<Token>, rest: JsString, chunk: JsString)
    requires Dead(secrets, output, rest)
    ensures Dead(secrets, output, rest + chunk) && Safe(secrets, output, rest + chunk)
  {
    var shorter, longer := output + Lits(rest), output + Lits(rest + chunk);
    assert shorter == longer[..|shorter|];
    forall s, at | s in secrets && 0 <= at < |output|
      ensures !Compatible(s, longer, at)
    {
      assert !Compatible(s, shorter, at);
    }
  }

  lemma LiteralOccurrence(s: JsString, output: seq<Token>, text: JsString, at: nat)
    requires |output| <= at
    ensures OccursAt(s, output + Lits(text), at) ==> at - |output| <= |text| && s <= text[at - |output|..]
  {
    var tokens := output + Lits(text);
    if OccursAt(s, tokens, at) {
      forall k | 0 <= k < |s|
        ensures s[k] == text[at - |output|..][k]
      {
        assert tokens[at + k] == Lit(s[k]);
      }
    }
  }

  lemma OccurrenceAvoidsMark(s: JsString, tokens: seq<Token>, at: nat, mark: nat)
    requires at <= mark < |tokens| && tokens[mark] == Redacted
    ensures OccursAt(s, tokens, at) ==> at + |s| <= mark
  {
    if at + |s| > mark {
      assert tokens[at + (mark - at)] != Lit(s[mark - at]);
    }
  }

  lemma OccursInPrefix(s: JsString, shorter: seq<Token>, longer: seq<Token>, at: nat)
    requires shorter <= longer && at + |s| <= |shorter|
    ensures OccursAt(s, shorter, at) <==> OccursAt(s, longer, at)
  {
    if OccursAt(s, longer, at) {
      forall k | 0 <= k < |s|
        ensures shorter[at + k] == Lit(s[k])
      {
        assert longer[at + k] == Lit(s[k]);
      }
    }
    if OccursAt(s, shorter, at) {
      forall k | 0 <= k < |s|
        ensures longer[at + k] == Lit(s[k])
      {
        assert shorter[at + k] == Lit(s[k]);
      }
    }
  }

  /** One round of the match loop keeps the output safe. */
  lemma SafeStep(secrets: seq<JsString>, output: seq<Token>, text: JsString, cursor: nat, i: nat, next: nat)
    requires Alternatives(secrets) && cursor <= i <= next <= |text|
    requires forall j :: cursor <= j < i ==> !MatchesAt(secrets, text, j)
    requires Safe(secrets, output, text[cursor..])
    ensures Safe(secrets, output + Lits(text[cursor..i]) + [Redacted], text[next..])
  {
    hide MatchLength;
    var before, literal := output + Lits(text[cursor..]), output + Lits(text[cursor..i]);
    var marked := literal + [Redacted];
    var after := marked + Lits(text[next..]);
    forall s, at | s in secrets && 0 <= at < |marked|
      ensures !OccursAt(s, after, at)
    {
      if OccursAt(s, after, at) {
        OccurrenceAvoidsMark(s, after, at, |literal|);
        OccursInPrefix(s, literal, after, at);
        OccursInPrefix(s, literal, before, at);
        if |output| <= at {
          var j := cursor + (at - |output|);
          LiteralOccurrence(s, output, text[cursor..], at);
          assert text[cursor..][at - |output|..] == text[j..];
          assert !MatchesAt(secrets, text, j);
          NoMatch(secrets, text[j..]);
        }
      }
    }
  }

  lemma {:induction false} ScanKeepsSafe(secrets: seq<JsString>, output: seq<Token>, text: JsString, cursor: nat)
    requires Alternatives(secrets) && cursor <= |text|
    requires Safe(secrets, output, text[cursor..])
    ensures Safe(secrets, output + ScanOutput(secrets, text, cursor), text[ScanEnd(secrets, text, cursor)..])
    ensures var tokens := ScanOutput(secrets, text, cursor);
            tokens != [] ==> tokens[|tokens| - 1] == Redacted
    decreases |text| - cursor
  {
    hide MatchLength, NextMatch, ScanOutput, ScanEnd, Safe, Alternatives;
    var i := NextMatch(secrets, text, cursor);
    if i < |text| {
      var next := i + MatchLength(secrets, text[i..]);
      assert MatchesAt(secrets, text, i);
      var marked := output + Lits(text[cursor..i]) + [Redacted];
      SafeStep(secrets, output, text, cursor, i, next);
      ScanKeepsSafe(secrets, marked, text, next);
      ScanUnfold(secrets, text, cursor);
      assert marked + ScanOutput(secrets, text, next) == output + ScanOutput(secrets, text, cursor);
    } else {
      ScanStop(secrets, text, cursor, output);
      ScanStop(secrets, text, cursor, []);
    }
  }

  lemma EmittedNotCompatible(secrets: seq<JsString>, output: seq<Token>, text: JsString, d: nat, s: JsString)
    requires Alternatives(secrets) && s in secrets && d < EmitLength(secrets, ScanRest(secrets, text))
    ensures !Compatible(s, output + Lits(ScanRest(secrets, text)), |output| + d)
  {
    hide MatchLength, ScanEnd, EmitLength, Compatible;
    var end, rest := ScanEnd(secrets, text, 0), ScanRest(secrets, text);
    ScanRestHasNoMatch(secrets, text, 0);
    assert rest[d..] == text[end + d..];
    assert !MatchesAt(secrets, text, end + d);
    EmittedIsDead(secrets, rest, d, s);
    CompatibleMeansPrefix(s, output, rest, |output| + d);
  }

  lemma ScanKeepsDead(secrets: seq<JsString>, output: seq<Token>, pending: JsString, chunk: JsString)
    requires Alternatives(secrets) && Dead(secrets, output, pending)
    ensures var text := pending + chunk;
            Dead(secrets, output + ScanOutput(secrets, text, 0), ScanRest(secrets, text))
  {
    hide MatchLength, MatchesAt, ScanOutput, ScanEnd, Alternatives, Compatible, OccursAt;
    var text := pending + chunk;
    var tokens, rest := ScanOutput(secrets, text, 0), ScanRest(secrets, text);
    DeadStaysSafe(secrets, output, pending, chunk);
    assert text[0..] == text;
    ScanKeepsSafe(secrets, output, text, 0);
    var emitted := output + tokens;
    var all := emitted + Lits(rest);
    if tokens == [] {
      ScanRestHasNoMatch(secrets, text, 0);
      assert emitted == output && rest == text;
    } else {
      assert all[|emitted| - 1] == Redacted;
      forall s, at | s in secrets && 0 <= at < |emitted|
        ensures !Compatible(s, all, at)
      {
        MarkInTheWay(s, all, at, |emitted| - 1);
      }
    }
  }

  /** After a `push` nothing that was emitted can be the start of a secret any more. */
  lemma PushKeepsDead(secrets: seq<JsString>, output: seq<Token>, pending: JsString, chunk: JsString)
    requires Alternatives(secrets) && Dead(secrets, output, pending)
    ensures var text := pending + chunk;
            Dead(secrets, output + PushOutput(secrets, text), PushRetained(secrets, text))
  {
    hide ScanOutput, ScanEnd, EmitLength, Alternatives, Compatible;
    var text := pending + chunk;
    var rest := ScanRest(secrets, text);
    var emit := EmitLength(secrets, rest);
    ScanKeepsDead(secrets, output, pending, chunk);
    var emitted := output + ScanOutput(secrets, text, 0);
    var all := emitted + Lits(rest);
    assert output + PushOutput(secrets, text) + Lits(rest[emit..]) == all;
    forall s, at | s in secrets && 0 <= at < |emitted| + emit
      ensures !Compatible(s, all, at)
    {
      if |emitted| <= at {
        EmittedNotCompatible(secrets, emitted, text, at - |emitted|, s);
      }
    }
  }

  lemma CompatibleMeansPrefix(s: JsString, output: seq<Token>, rest: JsString, at: nat)
    requires |output| <= at <= |output| + |rest|
    ensures Compatible(s, output + Lits(rest), at) ==> s <= rest[at - |output|..] || rest[at - |output|..] <= s
  {
    var tokens, tail := output + Lits(rest), rest[at - |output|..];
    if Compatible(s, tokens, at) {
      forall k | 0 <= k < |s| && k < |tail|
        ensures s[k] == tail[k]
      {
        assert tokens[at + k] == Lit(s[k]);
      }
    }
  }

  lemma MarkInTheWay(s: JsString, tokens: seq<Token>, at: nat, mark: nat)
    requires at <= mark < |tokens| && tokens[mark] == Redacted
    requires !OccursAt(s, tokens, at)
    ensures !Compatible(s, tokens, at)
  {
    if at + |s| > |tokens| {
      assert tokens[at + (mark - at)] != Lit(s[mark - at]);
    }
  }

  lemma {:induction false} PushAllIsDead(secrets: seq<JsString>, output: seq<Token>, pending: JsString,
                                         chunks: seq<JsString>)
    requires Alternatives(secrets) && Dead(secrets, output, pending)
    ensures var pushed := PushAll(secrets, pending, chunks);
            Dead(secrets, output + pushed.0, pushed.1)
    decreases |chunks|
  {
    hide Dead, PushOutput, PushRetained;
    if chunks == [] {
      assert output + [] == output;
    } else {
      var text := pending + chunks[0];
      PushKeepsDead(secrets, output, pending, chunks[0]);
      PushAllIsDead(secrets, output + PushOutput(secrets, text), PushRetained(secrets, text), chunks[1..]);
      var later := PushAll(secrets, PushRetained(secrets, text), chunks[1..]);
      assert output + (PushOutput(secrets, text) + later.0) == output + PushOutput(secrets, text) + later.0;
    }
  }

  /** Whatever the secrets and the chunks: no run of literals ever contains a secret. */
  lemma StreamIsSafe(secrets: seq<JsString>, chunks: seq<JsString>)
    requires Alternatives(secrets)
    ensures NoLiteralSecret(secrets, PushAll(secrets, [], chunks).0)
    ensures NoLiteralSecret(secrets, Stream(secrets, chunks))
  {
    hide ScanOutput, ScanEnd, MatchLength, PushAll;
    var pushed := PushAll(secrets, [], chunks);
    PushAllIsDead(secrets, [], [], chunks);
    assert [] + pushed.0 == pushed.0;
    DeadStaysSafe(secrets, pushed.0, pushed.1, []);
    assert pushed.1 + [] == pushed.1 && pushed.1[0..] == pushed.1;
    DeadHasNoSecret(secrets, pushed.0, pushed.1);
    var tokens, rest := ScanOutput(secrets, pushed.1, 0), ScanRest(secrets, pushed.1);
    ScanKeepsSafe(secrets, pushed.0, pushed.1, 0);
    ScanRestHasNoMatch(secrets, pushed.1, 0);
    assert Stream(secrets, chunks) == pushed.0 + tokens + Lits(rest);
    var end := ScanEnd(secrets, pushed.1, 0);
    forall s, at | s in secrets && 0 <= at
      ensures !OccursAt(s, pushed.0 + tokens + Lits(rest), at)
    {
      if |pushed.0 + tokens| <= at {
        LiteralOccurrence(s, pushed.0 + tokens, rest, at);
        var d := at - |pushed.0 + tokens|;
        if d < |rest| {
          assert rest[d..] == pushed.1[end + d..];
          assert !MatchesAt(secrets, pushed.1, end + d);
          NoMatch(secrets, rest[d..]);
        }
      }
    }
  }

  lemma DeadHasNoSecret(secrets: seq<JsString>, output: seq<Token>, rest: JsString)
    requires Alternatives(secrets) && Dead(secrets, output, rest)
    ensures NoLiteralSecret(secrets, output)
  {
    forall s, at | s in secrets && 0 <= at
      ensures !OccursAt(s, output, at)
    {
      if OccursAt(s, output, at) {
        assert at < |output|;
        assert Compatible(s, output + Lits(rest), at);
      }
    }
  }

  // ------------------------------------------------------------ what is held back

  ghost predicate StartsLongerSecret(secrets: seq<JsString>, text: JsString) {
    exists s :: s in secrets && text <= s && |text| < |s|
  }

  /** A `push` holds back exactly the longest suffix of the unmatched text that may still become a secret. */
  lemma HeldBackIsLongest(secrets: seq<JsString>, text: JsString)
    requires Alternatives(secrets)
    ensures var rest, kept := ScanRest(secrets, text), PushRetained(secrets, text);
            && |kept| <= |rest| && kept == Suffix(rest, |kept|)
            && (kept != [] ==> StartsLongerSecret(secrets, kept))
            && (forall m :: |kept| < m <= |rest| ==> !StartsLongerSecret(secrets, Suffix(rest, m)))
            && (secrets != [] ==> |kept| < |secrets[0]|)
  {
    hide ScanEnd;
    var rest, kept := ScanRest(secrets, text), PushRetained(secrets, text);
    var bound := RetainBound(secrets, rest);
    assert kept == Suffix(rest, |kept|);
    if kept != [] {
      KeptIsProper(secrets, text);
    }
    forall m | |kept| < m <= |rest|
      ensures !StartsLongerSecret(secrets, Suffix(rest, m))
    {
      LongerIsNotKept(secrets, rest, m);
    }
  }

  lemma KeptIsProper(secrets: seq<JsString>, text: JsString)
    requires Alternatives(secrets) && PushRetained(secrets, text) != []
    ensures StartsLongerSecret(secrets, PushRetained(secrets, text))
    ensures |PushRetained(secrets, text)| < |secrets[0]|
  {
    hide ScanEnd, MatchLength;
    var rest, kept := ScanRest(secrets, text), PushRetained(secrets, text);
    assert kept == Suffix(rest, |kept|);
    assert BeginsSecret(secrets, kept);
    var i :| 0 <= i < |secrets| && kept <= secrets[i];
    ScanRestHasNoMatch(secrets, text, 0);
    var at := |text| - |kept|;
    assert text[at..] == kept;
    assert !MatchesAt(secrets, text, at);
    NoMatch(secrets, kept);
    assert secrets[i] in secrets;
    assert |kept| < |secrets[i]|;
  }

  lemma LongerIsNotKept(secrets: seq<JsString>, rest: JsString, m: nat)
    requires Alternatives(secrets) && m <= |rest|
    requires RetainedLength(secrets, rest, RetainBound(secrets, rest)) < m
    ensures !StartsLongerSecret(secrets, Suffix(rest, m))
  {
    hide RetainedLength;
    assert BeginsSecret(secrets, Suffix(rest, m)) ==> RetainBound(secrets, rest) < m;
  }

  // ------------------------------------------------------------ nothing else is lost or added

  /** The text, with some secret in place of every mark. */
  ghost predicate Spells(secrets: seq<JsString>, tokens: seq<Token>, text: JsString)
    decreases |tokens|
  {
    if tokens == [] then text == []
    else
      match tokens[0]
      case Lit(unit) => text != [] && text[0] == unit && Spells(secrets, tokens[1..], text[1..])
      case Redacted => exists n: nat :: SpellsMark(secrets, tokens, text, n)
  }

  ghost predicate SpellsMark(secrets: seq<JsString>, tokens: seq<Token>, text: JsString, n: nat)
    requires tokens != []
    decreases |tokens|, 0
  {
    n <= |text| && text[..n] in secrets && Spells(secrets, tokens[1..], text[n..])
  }

  lemma {:induction false} SpellsConcat(secrets: seq<JsString>, a: seq<Token>, x: JsString, b: seq<Token>, y: JsString)
    requires Spells(secrets, a, x) && Spells(secrets, b, y)
    ensures Spells(secrets, a + b, x + y)
    decreases |a|
  {
    if a == [] {
      assert a + b == b && x + y == y;
    } else {
      assert (a + b)[1..] == a[1..] + b;
      if a[0].Lit? {
        assert (x + y)[1..] == x[1..] + y;
        SpellsConcat(secrets, a[1..], x[1..], b, y);
      } else {
        var n: nat :| SpellsMark(secrets, a, x, n);
        assert (x + y)[..n] == x[..n] && (x + y)[n..] == x[n..] + y;
        SpellsConcat(secrets, a[1..], x[n..], b, y);
        assert SpellsMark(secrets, a + b, x + y, n);
      }
    }
  }

  lemma {:induction false} LitsSpell(secrets: seq<JsString>, text: JsString)
    ensures Spells(secrets, Lits(text), text)
    decreases |text|
  {
    if text != [] {
      LitsSpell(secrets, text[1..]);
      assert Lits(text)[1..] == Lits(text[1..]);
    }
  }

  lemma MarkSpells(secrets: seq<JsString>, s: JsString)
    requires s in secrets
    ensures Spells(secrets, [Redacted], s)
  {
    assert s[..|s|] == s && s[|s|..] == [] && [Redacted][1..] == [];
    assert Spells(secrets, [], []);
    assert SpellsMark(secrets, [Redacted], s, |s|);
  }

  lemma RoundSpells(secrets: seq<JsString>, front: JsString, s: JsString, later: seq<Token>, back: JsString)
    requires s in secrets && Spells(secrets, later, back)
    ensures Spells(secrets, Lits(front) + ([Redacted] + later), front + (s + back))
  {
    hide Spells, Lits;
    LitsSpell(secrets, front);
    MarkSpells(secrets, s);
    SpellsConcat(secrets, [Redacted], s, later, back);
    SpellsConcat(secrets, Lits(front), front, [Redacted] + later, s + back);
  }

  lemma {:induction false} ScanSpells(secrets: seq<JsString>, text: JsString, cursor: nat)
    requires Alternatives(secrets) && cursor <= |text|
    ensures Spells(secrets, ScanOutput(secrets, text, cursor), text[cursor..ScanEnd(secrets, text, cursor)])
    decreases |text| - cursor
  {
    hide MatchLength, NextMatch, Spells, ScanOutput, ScanEnd, Lits;
    var i := NextMatch(secrets, text, cursor);
    if i < |text| {
      var n := MatchLength(secrets, text[i..]);
      LongestMatch(secrets, text[i..]);
      assert text[i..][..n] == text[i..i + n];
      ScanUnfold(secrets, text, cursor);
      ScanSpells(secrets, text, i + n);
      var end := ScanEnd(secrets, text, i + n);
      RoundSpells(secrets, text[cursor..i], text[i..i + n], ScanOutput(secrets, text, i + n), text[i + n..end]);
      assert text[cursor..i] + (text[i..i + n] + text[i + n..end]) == text[cursor..end];
    } else {
      ScanStop(secrets, text, cursor, []);
      NothingSpells(secrets);
      assert text[cursor..cursor] == [] && [] + ScanOutput(secrets, text, cursor) == ScanOutput(secrets, text, cursor);
    }
  }

  lemma NothingSpells(secrets: seq<JsString>)
    ensures Spells(secrets, [], [])
  {}

  lemma PushSpells(secrets: seq<JsString>, text: JsString)
    requires Alternatives(secrets)
    ensures exists emitted :: text == emitted + PushRetained(secrets, text) && Spells(secrets, PushOutput(secrets, text), emitted)
  {
    hide ScanOutput, ScanEnd, EmitLength, Spells, Lits;
    var end, rest := ScanEnd(secrets, text, 0), ScanRest(secrets, text);
    var emit := EmitLength(secrets, rest);
    ScanSpells(secrets, text, 0);
    LitsSpell(secrets, rest[..emit]);
    SpellsConcat(secrets, ScanOutput(secrets, text, 0), text[0..end], Lits(rest[..emit]), rest[..emit]);
    assert text == (text[0..end] + rest[..emit]) + PushRetained(secrets, text);
  }

  lemma FlushSpells(secrets: seq<JsString>, text: JsString)
    requires Alternatives(secrets)
    ensures Spells(secrets, FlushOutput(secrets, text), text)
  {
    hide ScanOutput, ScanEnd, Spells, Lits;
    var end := ScanEnd(secrets, text, 0);
    ScanSpells(secrets, text, 0);
    LitsSpell(secrets, text[end..]);
    SpellsConcat(secrets, ScanOutput(secrets, text, 0), text[0..end], Lits(text[end..]), text[end..]);
    assert text[0..end] + text[end..] == text;
  }

  lemma {:induction false} PushAllSpells(secrets: seq<JsString>, pending: JsString, chunks: seq<JsString>)
    requires Alternatives(secrets)
    ensures var pushed := PushAll(secrets, pending, chunks);
            Spells(secrets, pushed.0 + FlushOutput(secrets, pushed.1), pending + Concat(chunks))
    decreases |chunks|
  {
    hide PushOutput, PushRetained, FlushOutput, Spells, Alternatives;
    if chunks == [] {
      FlushSpells(secrets, pending);
      assert pending + [] == pending;
      assert [] + FlushOutput(secrets, pending) == FlushOutput(secrets, pending);
    } else {
      hide PushAll, Concat;
      var chunk, rest := chunks[0], chunks[1..];
      assert chunks == [chunk] + rest;
      PushAllCons(secrets, pending, chunk, rest);
      ConcatCons(chunk, rest);
      var text := pending + chunk;
      var retained := PushRetained(secrets, text);
      PushAllSpells(secrets, retained, rest);
      PushSpells(secrets, text);
      var emitted :| text == emitted + retained && Spells(secrets, PushOutput(secrets, text), emitted);
      var later := PushAll(secrets, retained, rest);
      SpellsConcat(secrets, PushOutput(secrets, text), emitted, later.0 + FlushOutput(secrets, later.1), retained + Concat(rest));
      assert pending + (chunk + Concat(rest)) == text + Concat(rest);
      assert (emitted + retained) + Concat(rest) == emitted + (retained + Concat(rest));
      assert (PushOutput(secrets, text) + later.0) + FlushOutput(secrets, later.1)
          == PushOutput(secrets, text) + (later.0 + FlushOutput(secrets, later.1));
    }
  }

  /** For any secrets and any chunks, the output spells the text, with some secret in place of every mark. */
  lemma StreamSpellsText(secrets: seq<JsString>, chunks: seq<JsString>)
    requires Alternatives(secrets)
    ensures Spells(secrets, Stream(secrets, chunks), Concat(chunks))
  {
    hide PushAll, FlushOutput, Spells, Concat;
    PushAllSpells(secrets, [], chunks);
    assert [] + Concat(chunks) == Concat(chunks);
  }
}
