/** The chat panel: the tokenizer that turns an assistant answer into text, inline code and
    clickable file references, and the conversation state that `sendMessage` and Clear update. */
module ChatPanel {
  import opened Wrappers
  import opened Strings
  import opened ChatRoute

  // ----- Splitting on backtick spans -----

  /** Index of the first backtick in `t`, or `|t|` when there is none. */
  function FirstBacktick(t: string): (k: nat)
    ensures k <= |t|
    ensures forall j :: 0 <= j < k ==> t[j] != '`'
    ensures k < |t| ==> t[k] == '`'
  {
    if t == [] || t[0] == '`' then 0 else 1 + FirstBacktick(t[1..])
  }

  /** A text the pattern `` `[^`]+` `` matches as a whole: a backtick, at least one other
      character, and a closing backtick. */
  predicate IsSpan(p: string)
  {
    |p| >= 3 && p[0] == '`' && p[|p| - 1] == '`' && forall j :: 0 < j < |p| - 1 ==> p[j] != '`'
  }

  /** Length of the span the pattern matches at the start of `s`, 0 when it matches nothing
      there; no other prefix of `s` is a span. */
  function SpanLength(s: string): (n: nat)
    ensures n <= |s|
    ensures n > 0 ==> IsSpan(s[..n])
    ensures forall m :: 0 < m <= |s| && IsSpan(s[..m]) ==> m == n
  {
    if s == [] || s[0] != '`' then
      assert forall m :: 0 < m <= |s| ==> s[..m][0] == s[0];
      0
    else
      var k := 1 + FirstBacktick(s[1..]);
      assert forall m :: 0 < m <= |s| && IsSpan(s[..m]) ==> m == k + 1 by {
        forall m | 0 < m <= |s| && IsSpan(s[..m]) ensures m == k + 1 {
          assert s[1..][m - 2] == s[..m][m - 1];
          assert forall j :: 0 <= j < m - 2 ==> s[1..][j] == s[..m][j + 1];
        }
      }
      if 1 < k < |s| then
        assert forall j :: 0 <= j < k - 1 ==> s[1..][j] == s[..k + 1][j + 1];
        k + 1
      else 0
  }

  /** `String.prototype.split` with the capturing pattern: scanning from the left, every
      span the pattern matches becomes a part of its own and the text between spans
      (`lit` holds the text since the last span) becomes the parts around them. */
  function SplitFrom(s: string, lit: string): seq<string>
    decreases |s|
  {
    if s == [] then [lit]
    else
      var n := SpanLength(s);
      if n > 0 then [lit, s[..n]] + SplitFrom(s[n..], "")
      else SplitFrom(s[1..], lit + [s[0]])
  }

  /** `content.split(/(`[^`]+`)/g)`. */
  function SplitSpans(content: string): seq<string>
  {
    SplitFrom(content, "")
  }

  lemma ConcatPair(a: string, b: string, rest: seq<string>)
    ensures Concat([a, b] + rest) == a + (b + Concat(rest))
  {
    assert ([a, b] + rest)[1..] == [b] + rest;
    assert ([b] + rest)[1..] == rest;
  }

  /** One step of the scan when a span starts the remaining text. */
  lemma SplitFromSpanStep(s: string, lit: string)
    requires SpanLength(s) > 0
    ensures SplitFrom(s, lit) == [lit, s[..SpanLength(s)]] + SplitFrom(s[SpanLength(s)..], "")
  {
  }

  /** One step of the scan when no span starts the remaining text: its first character joins
      the pending text. */
  lemma SplitFromCharStep(s: string, lit: string)
    requires s != [] && SpanLength(s) == 0
    ensures SplitFrom(s, lit) == SplitFrom(s[1..], lit + [s[0]])
  {
  }

  lemma RoundTripSpanStep(s: string, lit: string)
    requires SpanLength(s) > 0
    requires Concat(SplitFrom(s[SpanLength(s)..], "")) == s[SpanLength(s)..]
    ensures Concat(SplitFrom(s, lit)) == lit + s
  {
    var n := SpanLength(s);
    SplitFromSpanStep(s, lit);
    ConcatAroundSpan(lit, s, n, SplitFrom(s[n..], ""));
  }

  lemma ConcatAroundSpan(lit: string, s: string, n: nat, rest: seq<string>)
    requires n <= |s| && Concat(rest) == s[n..]
    ensures Concat([lit, s[..n]] + rest) == lit + s
  {
    ConcatPair(lit, s[..n], rest);
    assert s[..n] + s[n..] == s;
  }

  lemma RoundTripCharStep(s: string, lit: string)
    requires s != [] && SpanLength(s) == 0
    requires Concat(SplitFrom(s[1..], lit + [s[0]])) == (lit + [s[0]]) + s[1..]
    ensures Concat(SplitFrom(s, lit)) == lit + s
  {
    var t := lit + [s[0]];
    SplitFromCharStep(s, lit);
    assert Concat(SplitFrom(s, lit)) == t + s[1..];
    ShiftChar(lit, s);
  }

  /** Moving the first character of the rest onto the pending text keeps the whole. */
  lemma ShiftChar(lit: string, s: string)
    requires s != []
    ensures (lit + [s[0]]) + s[1..] == lit + s
  {
    var t := lit + [s[0]];
    assert |t + s[1..]| == |lit + s|;
    forall k | 0 <= k < |lit + s| ensures (t + s[1..])[k] == (lit + s)[k] {
      if k > |lit| {
        assert (t + s[1..])[k] == s[1..][k - |t|] == s[k - |lit|];
      }
    }
  }

  /** Concatenating the parts gives back the text. */
  lemma {:induction false} SplitFromRoundTrip(s: string, lit: string)
    ensures Concat(SplitFrom(s, lit)) == lit + s
    decreases |s|
  {
    if s == [] {
      assert Concat([lit]) == lit + Concat([]);
    } else if SpanLength(s) > 0 {
      SplitFromRoundTrip(s[SpanLength(s)..], "");
      RoundTripSpanStep(s, lit);
    } else {
      SplitFromRoundTrip(s[1..], lit + [s[0]]);
      RoundTripCharStep(s, lit);
    }
  }

  /** Text, span, text, ..., text: a text part, then pairs of a span and a text part. */
  ghost predicate Alternating(parts: seq<string>)
    decreases |parts|
  {
    |parts| == 1 || (|parts| >= 3 && IsSpan(parts[1]) && Alternating(parts[2..]))
  }

  lemma {:induction false} SplitFromAlternating(s: string, lit: string)
    ensures Alternating(SplitFrom(s, lit))
    decreases |s|
  {
    if s == [] {
    } else if SpanLength(s) > 0 {
      var n := SpanLength(s);
      var rest := SplitFrom(s[n..], "");
      SplitFromSpanStep(s, lit);
      SplitFromAlternating(s[n..], "");
      assert ([lit, s[..n]] + rest)[2..] == rest;
    } else {
      SplitFromCharStep(s, lit);
      SplitFromAlternating(s[1..], lit + [s[0]]);
    }
  }

  lemma {:induction false} AlternatingParity(parts: seq<string>)
    requires Alternating(parts)
    ensures |parts| % 2 == 1
    ensures forall i :: 0 <= i < |parts| && i % 2 == 1 ==> IsSpan(parts[i])
    decreases |parts|
  {
    if |parts| > 1 {
      var rest := parts[2..];
      AlternatingParity(rest);
      forall i | 0 <= i < |parts| && i % 2 == 1 ensures IsSpan(parts[i]) {
        if i >= 2 {
          assert parts[i] == rest[i - 2] && (i - 2) % 2 == 1;
        }
      }
    }
  }

  /** The parts alternate: text, span, text, ..., text; so there is an odd number of them and
      every odd-numbered one is a span. */
  lemma SplitFromAlternates(s: string, lit: string)
    ensures |SplitFrom(s, lit)| % 2 == 1
    ensures forall i :: 0 <= i < |SplitFrom(s, lit)| && i % 2 == 1 ==> IsSpan(SplitFrom(s, lit)[i])
  {
    SplitFromAlternating(s, lit);
    AlternatingParity(SplitFrom(s, lit));
  }

  /** No stretch of a text holds a span: the pattern would have matched it. */
  predicate NoSpanIn(p: string)
  {
    forall i, m :: 0 <= i < m <= |p| ==> !IsSpan(p[i..m])
  }

  /** No position of the pending text starts a span of what follows it. */
  ghost predicate ScannedPast(lit: string, s: string)
  {
    forall i :: 0 <= i < |lit| ==> SpanLength(lit[i..] + s) == 0
  }

  lemma PendingHasNoSpan(lit: string, s: string)
    requires ScannedPast(lit, s)
    ensures NoSpanIn(lit)
  {
    forall i, m | 0 <= i < m <= |lit| ensures !IsSpan(lit[i..m]) {
      var t := lit[i..] + s;
      assert t[..m - i] == lit[i..m];
    }
  }

  lemma ShiftPending(lit: string, s: string, i: nat)
    requires s != [] && i <= |lit|
    ensures (lit + [s[0]])[i..] + s[1..] == lit[i..] + s
  {
    assert (lit + [s[0]])[i..] == lit[i..] + [s[0]];
    assert s == [s[0]] + s[1..];
  }

  /** Every other part, from the first, holds no span. */
  ghost predicate EvenPartsClean(parts: seq<string>)
    decreases |parts|
  {
    (|parts| >= 1 ==> NoSpanIn(parts[0])) && (|parts| >= 2 ==> EvenPartsClean(parts[2..]))
  }

  lemma {:induction false} EvenPartsParity(parts: seq<string>)
    requires EvenPartsClean(parts)
    ensures forall i :: 0 <= i < |parts| && i % 2 == 0 ==> NoSpanIn(parts[i])
    decreases |parts|
  {
    if |parts| >= 2 {
      var rest := parts[2..];
      EvenPartsParity(rest);
      forall i | 0 <= i < |parts| && i % 2 == 0 ensures NoSpanIn(parts[i]) {
        if i >= 2 {
          assert parts[i] == rest[i - 2] && (i - 2) % 2 == 0;
        }
      }
    }
  }

  lemma {:induction false} SplitFromClean(s: string, lit: string)
    requires ScannedPast(lit, s)
    ensures EvenPartsClean(SplitFrom(s, lit))
    decreases |s|
  {
    PendingHasNoSpan(lit, s);
    if s == [] {
    } else if SpanLength(s) > 0 {
      var n := SpanLength(s);
      var rest := SplitFrom(s[n..], "");
      SplitFromSpanStep(s, lit);
      SplitFromClean(s[n..], "");
      assert ([lit, s[..n]] + rest)[2..] == rest;
    } else {
      var lit' := lit + [s[0]];
      forall i | 0 <= i < |lit'| ensures SpanLength(lit'[i..] + s[1..]) == 0 {
        ShiftPending(lit, s, i);
      }
      SplitFromCharStep(s, lit);
      SplitFromClean(s[1..], lit');
    }
  }

  /** The even-numbered parts hold no span: the split leaves no match behind in the text. */
  lemma SplitFromLeavesNoSpan(s: string, lit: string)
    requires ScannedPast(lit, s)
    ensures forall i :: 0 <= i < |SplitFrom(s, lit)| && i % 2 == 0 ==> NoSpanIn(SplitFrom(s, lit)[i])
  {
    SplitFromClean(s, lit);
    EvenPartsParity(SplitFrom(s, lit));
  }

  /** The split of a message: its parts give the message back, text and spans alternate,
      and no span is left inside a text part. */
  lemma SplitSpansShape(content: string)
    ensures Concat(SplitSpans(content)) == content
    ensures |SplitSpans(content)| % 2 == 1
    ensures forall i :: 0 <= i < |SplitSpans(content)| ==>
      if i % 2 == 1 then IsSpan(SplitSpans(content)[i]) else NoSpanIn(SplitSpans(content)[i])
  {
    SplitFromRoundTrip(content, "");
    SplitFromAlternates(content, "");
    SplitFromLeavesNoSpan(content, "");
  }

  // ----- Classifying the parts -----

  datatype Segment = Plain(text: string) | Code(code: string) | FileLink(path: string)

  /** `part.startsWith("`") && part.endsWith("`")`; a lone backtick passes. */
  predicate Delimited(part: string)
  {
    |part| >= 1 && part[0] == '`' && part[|part| - 1] == '`'
  }

  /** `part.slice(1, -1)`. */
  function Inner(part: string): string
  {
    if |part| >= 2 then part[1..|part| - 1] else ""
  }

  /** A character of `\w`. */
  predicate IsWordChar(c: char)
  {
    'a' <= c <= 'z' || 'A' <= c <= 'Z' || '0' <= c <= '9' || c == '_'
  }

  /** `/\.\w+$/` matches `t` with its dot at `i`. */
  ghost predicate ExtensionAt(t: string, i: int)
  {
    0 <= i && i + 1 < |t| && t[i] == '.' && forall j :: i < j < |t| ==> IsWordChar(t[j])
  }

  /** Length of the run of word characters that ends `t`. */
  function WordRun(t: string): (n: nat)
    ensures n <= |t|
    ensures forall j :: |t| - n <= j < |t| ==> IsWordChar(t[j])
    ensures n < |t| ==> !IsWordChar(t[|t| - 1 - n])
  {
    if t == [] || !IsWordChar(t[|t| - 1]) then 0
    else
      var n := 1 + WordRun(t[..|t| - 1]);
      assert forall j :: 0 <= j < |t| - 1 ==> t[..|t| - 1][j] == t[j];
      n
  }

  lemma ExtensionFollowsWordRun(t: string, i: int)
    requires ExtensionAt(t, i)
    ensures i == |t| - 1 - WordRun(t)
  {
  }

  /** `/\.\w+$/.test(t)`. */
  function HasExtension(t: string): (b: bool)
    ensures b <==> exists i :: ExtensionAt(t, i)
  {
    var n := WordRun(t);
    var b := 0 < n < |t| && t[|t| - 1 - n] == '.';
    assert b ==> ExtensionAt(t, |t| - 1 - n);
    assert forall i :: ExtensionAt(t, i) ==> b by {
      forall i | ExtensionAt(t, i) ensures b {
        ExtensionFollowsWordRun(t, i);
      }
    }
    b
  }

  /** The file-path test on a span's inner text: an extension at the end, or a slash anywhere. */
  ghost predicate LooksLikePath(t: string)
  {
    (exists i :: ExtensionAt(t, i)) || '/' in t
  }

  /** One part of the split, as the panel renders it. */
  function Classify(part: string): (seg: Segment)
    ensures seg.Plain? <==> !Delimited(part)
    ensures seg.Plain? ==> seg.text == part
    ensures seg.Code? ==> seg.code == Inner(part) && !LooksLikePath(Inner(part))
    ensures seg.FileLink? ==> seg.path == Inner(part) && LooksLikePath(Inner(part))
  {
    if Delimited(part) then
      var inner := Inner(part);
      if HasExtension(inner) || '/' in inner then FileLink(inner) else Code(inner)
    else Plain(part)
  }

  /** `parseMessageContent`: the split, part by part. */
  function ParseMessageContent(content: string): (segs: seq<Segment>)
    ensures |segs| == |SplitSpans(content)|
    ensures forall i :: 0 <= i < |segs| ==> segs[i] == Classify(SplitSpans(content)[i])
  {
    var parts := SplitSpans(content);
    seq(|parts|, i requires 0 <= i < |parts| => Classify(parts[i]))
  }

  /** The text a segment stands for in the answer, backticks included. */
  function Source(seg: Segment): string
  {
    match seg
    case Plain(t) => t
    case Code(c) => "`" + c + "`"
    case FileLink(p) => "`" + p + "`"
  }

  function Sources(segs: seq<Segment>): (r: seq<string>)
    ensures |r| == |segs|
  {
    seq(|segs|, i requires 0 <= i < |segs| => Source(segs[i]))
  }

  /** Classifying loses nothing but a lone backtick: every other part is given back. */
  lemma ClassifyKeepsPart(part: string)
    requires part != "`"
    ensures Source(Classify(part)) == part
  {
    if Delimited(part) {
      var seg := Classify(part);
      assert Source(seg) == "`" + Inner(part) + "`" by {
        assert seg.Code? || seg.FileLink?;
      }
      Rewrap(part);
    }
  }

  /** A delimited part of two or more characters is its inner text between two backticks. */
  lemma Rewrap(part: string)
    requires Delimited(part) && part != "`"
    ensures "`" + Inner(part) + "`" == part
  {
    var inner := part[1..|part| - 1];
    assert Inner(part) == inner;
    assert |"`" + inner + "`"| == |part|;
    forall j | 0 <= j < |part| ensures ("`" + inner + "`")[j] == part[j] {
      if 0 < j < |part| - 1 {
        assert ("`" + inner + "`")[j] == inner[j - 1];
      }
    }
  }

  /** Every span the split finds becomes code or a file reference, never plain text. */
  lemma SpansAreNeverText(content: string)
    ensures forall i :: 0 <= i < |ParseMessageContent(content)| && i % 2 == 1 ==>
      !ParseMessageContent(content)[i].Plain?
  {
    SplitSpansShape(content);
  }

  /** Rendering keeps the answer: unless a part is a lone backtick, the segments give the
      answer's text back. */
  lemma ParseRoundTrip(content: string)
    requires "`" !in SplitSpans(content)
    ensures Concat(Sources(ParseMessageContent(content))) == content
  {
    var parts := SplitSpans(content);
    forall i | 0 <= i < |parts| ensures Source(Classify(parts[i])) == parts[i] {
      ClassifyKeepsPart(parts[i]);
    }
    assert Sources(ParseMessageContent(content)) == parts;
    SplitSpansShape(content);
  }

  /** A lone backtick is not a span, yet it starts and ends with a backtick: it shows as an
      empty piece of inline code. */
  lemma LoneBacktickShowsAsEmptyCode()
    ensures SplitSpans("`") == ["`"]
    ensures ParseMessageContent("`") == [Code("")]
  {
    assert SpanLength("`") == 0;
    assert "`"[1..] == "" && "" + ["`"[0]] == "`";
    assert SplitFrom("`", "") == SplitFrom("", "`");
    assert Delimited("`") && Inner("`") == "";
  }

  /** `` `a.ts` `` on its own opens `a.ts`. */
  lemma SampleReferenceOpensFile()
    ensures ParseMessageContent("`a.ts`") == [Plain(""), FileLink("a.ts"), Plain("")]
  {
    assert ExtensionAt("a.ts", 1);
    assert "`" + "a.ts" + "`" == "`a.ts`";
    FileLinkOpensInnerText("a.ts");
  }


  /** A message that is one backtick span splits into that span between two empty texts. */
  lemma LoneSpanSplit(path: string)
    requires path != "" && '`' !in path
    ensures SplitSpans("`" + path + "`") == ["", "`" + path + "`", ""]
  {
    var t := "`" + path + "`";
    forall j | 0 < j < |t| - 1 ensures t[j] != '`' {
      assert t[j] == path[j - 1];
    }
    assert t[..|t|] == t && IsSpan(t);
    SplitFromSpanStep(t, "");
    assert t[|t|..] == "";
  }

  /** A reference is opened by its inner text, without the backticks: a message that is one
      span whose inner text looks like a path renders as a file reference to that text. */
  lemma FileLinkOpensInnerText(path: string)
    requires path != "" && '`' !in path
    requires HasExtension(path) || '/' in path
    ensures ParseMessageContent("`" + path + "`") == [Plain(""), FileLink(path), Plain("")]
  {
    var t := "`" + path + "`";
    LoneSpanSplit(path);
    assert Inner(t) == path;
    assert Classify(t) == FileLink(path);
    assert Classify("") == Plain("");
  }



  // ----- The conversation -----

  /** What the panel posts to the chat route. */
  datatype ChatRequest = ChatRequest(repoName: string, message: string, history: seq<ChatMessage>)

  /** How the request ends, as the panel sees it: `fetch` or a stream read throws, the
      status is not OK (with the body's text), there is no body to read, or the body
      yields its decoded chunks and then either ends or throws. */
  datatype Reply =
    | Thrown
    | NotOk(body: string)
    | NoBody
    | Body(chunks: seq<string>, fails: bool)

  const FailureText := "Failed to get response. Please try again."

  /** The message list after the reply to `sent` (the list with the new user message) has
      been handled, given the list `current` at that moment. */
  function AfterReply(current: seq<ChatMessage>, sent: seq<ChatMessage>, reply: Reply): seq<ChatMessage>
  {
    match reply
    case Thrown => sent + [ChatMessage(Assistant, FailureText)]
    case NotOk(body) => sent + [ChatMessage(Assistant, "Error: " + body)]
    case NoBody => current
    case Body(chunks, fails) =>
      sent + [ChatMessage(Assistant, if fails then FailureText else Concat(chunks))]
  }

  /** Every reply other than a missing body leaves the sent conversation in place followed
      by exactly one assistant message; a stream that ends holds all its chunks in order. */
  lemma ReplyAppendsOneAnswer(current: seq<ChatMessage>, sent: seq<ChatMessage>, reply: Reply)
    requires !reply.NoBody?
    ensures var after := AfterReply(current, sent, reply);
      |after| == |sent| + 1 && after[..|sent|] == sent && after[|sent|].role == Assistant
    ensures reply.Body? && !reply.fails ==>
      AfterReply(current, sent, reply)[|sent|].content == Concat(reply.chunks)
    ensures reply.NotOk? ==> AfterReply(current, sent, reply)[|sent|].content == "Error: " + reply.body
    ensures reply.Thrown? || (reply.Body? && reply.fails) ==>
      AfterReply(current, sent, reply)[|sent|].content == FailureText
  {
    var after := AfterReply(current, sent, reply);
    assert after[..|sent|] == sent;
  }

  class Panel {
    const repoName: string
    var messages: seq<ChatMessage>
    var input: string
    var isLoading: bool

    constructor(repoName: string)
      ensures this.repoName == repoName && messages == [] && input == "" && !isLoading
    {
      this.repoName := repoName;
      messages := [];
      input := "";
      isLoading := false;
    }

    /** The input box's `onChange`. */
    method EditInput(text: string)
      modifies this
      ensures input == text && messages == old(messages) && isLoading == old(isLoading)
    {
      input := text;
    }

    /** The Clear button. */
    method Clear()
      modifies this
      ensures messages == [] && input == old(input) && isLoading == old(isLoading)
    {
      messages := [];
    }

    /** The synchronous half of `sendMessage`: a blank input or a send while loading changes
        nothing; otherwise the trimmed input becomes a user message, the box empties, loading
        starts, and the request carries the conversation as it was before the new message. */
    method Submit() returns (request: Option<ChatRequest>)
      modifies this
      ensures request.None? <==> Trim(old(input)) == "" || old(isLoading)
      ensures request.None? ==> messages == old(messages) && input == old(input) && isLoading == old(isLoading)
      ensures request.Some? ==>
        && request.value == ChatRequest(repoName, Trim(old(input)), old(messages))
        && messages == old(messages) + [ChatMessage(User, Trim(old(input)))]
        && input == "" && isLoading
    {
      var trimmed := Trim(input);
      if trimmed == "" || isLoading {
        return None;
      }
      request := Some(ChatRequest(repoName, trimmed, messages));
      messages := messages + [ChatMessage(User, trimmed)];
      input := "";
      isLoading := true;
    }

    /** The awaited half: `sent` is the list the closure captured when the request went out.
        Each streamed chunk is appended to the answer as it arrives; loading ends on every path. */
    method Receive(sent: seq<ChatMessage>, reply: Reply)
      modifies this
      ensures messages == AfterReply(old(messages), sent, reply)
      ensures input == old(input) && !isLoading
    {
      match reply {
        case Thrown =>
          messages := sent + [ChatMessage(Assistant, FailureText)];
        case NotOk(body) =>
          messages := sent + [ChatMessage(Assistant, "Error: " + body)];
        case NoBody =>
        case Body(chunks, fails) =>
          var answer := "";
          messages := sent + [ChatMessage(Assistant, answer)];
          var i := 0;
          while i < |chunks|
            invariant 0 <= i <= |chunks|
            invariant answer == Concat(chunks[..i])
            invariant messages == sent + [ChatMessage(Assistant, answer)]
            invariant input == old(input)
          {
            ConcatSnoc(chunks[..i], chunks[i]);
            assert chunks[..i + 1] == chunks[..i] + [chunks[i]];
            answer := answer + chunks[i];
            messages := sent + [ChatMessage(Assistant, answer)];
            i := i + 1;
          }
          assert chunks[..|chunks|] == chunks;
          if fails {
            messages := sent + [ChatMessage(Assistant, FailureText)];
          }
      }
      isLoading := false;
    }

    /** `sendMessage` run to the end, with `server` answering the request. */
    method SendMessage(server: ChatRequest -> Reply) returns (request: Option<ChatRequest>)
      modifies this
      ensures request.None? <==> Trim(old(input)) == "" || old(isLoading)
      ensures request.None? ==> messages == old(messages) && input == old(input) && isLoading == old(isLoading)
      ensures request.Some? ==>
        var sent := old(messages) + [ChatMessage(User, Trim(old(input)))];
        && request.value == ChatRequest(repoName, Trim(old(input)), old(messages))
        && messages == AfterReply(sent, sent, server(request.value))
        && input == "" && !isLoading
    {
      request := Submit();
      if request.Some? {
        Receive(messages, server(request.value));
      }
    }
  }

  // ----- The panel and the chat route together -----

  /** The body the panel posts, as the route reads it. */
  function RequestBody(request: ChatRequest): ChatBody
  {
    ChatBody(Some(request.repoName), Some(request.message), Some(request.history))
  }

  /** What the panel gets back from each answer of the route; `crashPage` is the framework's
      body for an uncaught exception. */
  function ClientReply(response: ChatResponse, crashPage: string): Reply
  {
    match response
    case Unauthorized => NotOk("{\"error\":\"Not authenticated\"}")
    case BadRequest => NotOk("{\"error\":\"repoName and message required\"}")
    case ServerError => NotOk(crashPage)
    case Streamed(chunks, end) => Body(chunks, end == Errored)
  }

  /** A request the panel sends for a named repository passes the route's validation, and
      the model receives the system prompt followed by exactly the panel's conversation. */
  lemma RouteSeesPanelConversation(request: ChatRequest, prompt: string)
    requires request.repoName != "" && request.message != ""
    ensures Truthy(RequestBody(request).repoName) && Truthy(RequestBody(request).message)
    ensures ComposeMessages(prompt, RequestBody(request).history, request.message)
         == [ChatMessage(System, prompt)] + (request.history + [ChatMessage(User, request.message)])
  {
    var r := ComposeMessages(prompt, RequestBody(request).history, request.message);
    assert r == [r[0]] + r[1..|r| - 1] + [r[|r| - 1]];
  }

  lemma ShownAnswer(current: seq<ChatMessage>, sent: seq<ChatMessage>, chunks: seq<string>)
    ensures AfterReply(current, sent, Body(chunks, false)) == sent + [ChatMessage(Assistant, Concat(chunks))]
  {
  }

  /** A completion the route streams to its end shows up in the panel as one assistant message
      holding the whole completion text, empty deltas and all. */
  lemma StreamedCompletionShown(current: seq<ChatMessage>, sent: seq<ChatMessage>, deltas: seq<Option<string>>, crashPage: string)
    ensures AfterReply(current, sent, ClientReply(Streamed(Forwarded(deltas), Closed), crashPage))
         == sent + [ChatMessage(Assistant, Concat(Texts(deltas)))]
  {
    var chunks := Forwarded(deltas);
    assert ClientReply(Streamed(chunks, Closed), crashPage) == Body(chunks, false);
    ShownAnswer(current, sent, chunks);
    ForwardedKeepsText(deltas);
  }
}
