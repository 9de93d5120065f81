/** The transcript side of the repository (summarize.py): the YAML prompt lines
    are stripped and classified into question/answer messages by the pattern
    `^([QA]\d*):?\s*(.*)$`, the user-initials map is normalised to strings, and
    both are substituted into the static page template. */
module Summarize {
  import opened Wrappers
  import opened Text
  import opened Lists

  /** One chat bubble: `kind` is the message type (`Q`, `Q1`, `A3`, ...), the
      field the source calls `type`. */
  datatype Message = Message(kind: string, text: string)

  /** The type group `[QA]\d*`. */
  predicate IsMessageType(k: string) {
    |k| >= 1 && (k[0] == 'Q' || k[0] == 'A') && AllDigits(k[1..])
  }

  predicate StartsQA(p: string) {
    |p| >= 1 && (p[0] == 'Q' || p[0] == 'A')
  }

  // ---------------------------------------------------------------------------
  // The regular expression `^([QA]\d*):?\s*(.*)$`, matched by hand.

  /** End of the greedy run of digits starting at `i`. */
  function DigitsEnd(s: string, i: nat): (j: nat)
    requires i <= |s|
    ensures i <= j <= |s| && AllDigits(s[i..j])
    ensures j == |s| || !IsDigit(s[j])
    decreases |s| - i
  {
    if i < |s| && IsDigit(s[i]) then
      var j := DigitsEnd(s, i + 1);
      assert s[i..j] == [s[i]] + s[i + 1..j];
      j
    else
      i
  }

  lemma {:induction false} DigitsEndExact(s: string, i: nat, j: nat)
    requires i <= j <= |s| && AllDigits(s[i..j]) && (j == |s| || !IsDigit(s[j]))
    ensures DigitsEnd(s, i) == j
    decreases j - i
  {
    if i < j {
      assert s[i] == s[i..j][0];
      assert s[i + 1..j] == s[i..j][1..];
      DigitsEndExact(s, i + 1, j);
    }
  }

  /** Where group 1, `[QA]\d*`, ends. */
  function KindEnd(p: string): nat
    requires |p| >= 1
  {
    DigitsEnd(p, 1)
  }

  /** Where the optional `:` ends. */
  function SepEnd(p: string): nat
    requires |p| >= 1
  {
    var d := KindEnd(p);
    if d < |p| && p[d] == ':' then d + 1 else d
  }

  /** Where `\s*` ends, that is, where group 2 starts. */
  function TextStart(p: string): nat
    requires |p| >= 1
  {
    SpaceRunEnd(p, SepEnd(p))
  }

  /** `re.match(r'^([QA]\d*):?\s*(.*)$', p)` as (group 1, group 2). `.*` stops at
      the first line feed and `$` matches at the end or before a final line feed;
      no backtracking into the greedy runs can move a line feed out of group 2,
      so the greedy split is the only candidate. */
  function MatchQa(p: string): (r: Option<Message>)
    ensures r.Some? ==> StartsQA(p) && IsMessageType(r.value.kind) && NoNewline(r.value.text)
  {
    if !StartsQA(p) then None
    else
      var kind := p[..KindEnd(p)];
      var rest := p[TextStart(p)..];
      assert kind[1..] == p[1..KindEnd(p)];
      if NoNewline(rest) then Some(Message(kind, rest))
      else if rest[|rest| - 1] == '\n' && NoNewline(rest[..|rest| - 1]) then
        Some(Message(kind, rest[..|rest| - 1]))
      else None
  }

  /** `p` splits as type, optional colon, whitespace and text, with the digits
      of the type and the whitespace each taken as far as they go. */
  predicate GreedySplit(p: string, kind: string, sep: string, ws: string, text: string) {
    && p == kind + sep + ws + text
    && IsMessageType(kind)
    && (sep == "" || sep == ":")
    && AllSpace(ws)
    && (sep + ws + text == [] || !IsDigit((sep + ws + text)[0]))
    && (sep == "" && ws + text != [] ==> (ws + text)[0] != ':')
    && (text == [] || !IsSpace(text[0]))
  }

  /** Every greedy split whose text has no line feed is what the regex returns. */
  lemma MatchQaComplete(p: string, kind: string, sep: string, ws: string, text: string)
    requires GreedySplit(p, kind, sep, ws, text) && NoNewline(text)
    ensures MatchQa(p) == Some(Message(kind, text))
  {
    var d, c, w := |kind|, |kind| + |sep|, |kind| + |sep| + |ws|;
    assert p[..d] == kind;
    assert p[1..d] == kind[1..];
    assert d < |p| ==> p[d] == (sep + ws + text)[0];
    DigitsEndExact(p, 1, d);
    assert sep == ":" ==> p[d] == ':';
    assert SepEnd(p) == c;
    assert p[c..w] == ws;
    assert w < |p| ==> p[w] == text[0];
    SpaceRunEndExact(p, c, w);
    assert p[w..] == text;
  }

  /** On a stripped line every match is a greedy split, and the text is itself
      stripped: it neither starts nor ends with whitespace. */
  lemma MatchQaSound(p: string, m: Message)
    requires IsStripped(p) && MatchQa(p) == Some(m)
    ensures GreedySplit(p, m.kind, p[KindEnd(p)..SepEnd(p)], p[SepEnd(p)..TextStart(p)], m.text)
    ensures IsStripped(m.text) && NoNewline(m.text)
  {
    var d, c, w := KindEnd(p), SepEnd(p), TextStart(p);
    SpaceRunAllSpace(p, c);
    var rest := p[w..];
    if rest != [] {
      assert rest[|rest| - 1] == p[|p| - 1];
    }
    assert m.text == rest;
    assert p == p[..d] + p[d..c] + p[c..w] + rest;
    assert d < |p| ==> (p[d..c] + p[c..w] + rest)[0] == p[d];
    assert c < |p| ==> (p[c..w] + rest)[0] == p[c];
  }

  /** A stripped line that starts with `Q` or `A` and has no line feed is never
      silently dropped by the regex. */
  lemma MatchQaTotal(p: string)
    requires StartsQA(p) && NoNewline(p)
    ensures MatchQa(p).Some?
  {
    var rest := p[TextStart(p)..];
    assert forall i :: 0 <= i < |rest| ==> rest[i] == p[TextStart(p) + i];
  }

  /** A stripped line with a line feed after the start of its text fails `.*$`. */
  lemma MatchQaDropsNewline(p: string)
    requires IsStripped(p) && StartsQA(p) && !NoNewline(p[TextStart(p)..])
    ensures MatchQa(p) == None
  {
    var rest := p[TextStart(p)..];
    assert rest[|rest| - 1] == p[|p| - 1];
  }

  // ---------------------------------------------------------------------------
  // The classification loop of extract_qa_messages.

  /** The `startswith` chain guarding the regex, written out as in the source. */
  predicate PassesPrefixCheck(p: string) {
    StartsWith(p, "Q") || StartsWith(p, "A") ||
    StartsWith(p, "Q1") || StartsWith(p, "Q2") ||
    StartsWith(p, "A1") || StartsWith(p, "A2") ||
    StartsWith(p, "A3") || StartsWith(p, "A4")
  }

  /** The chain reduces to its first two tests, so the regex alone decides. */
  lemma PrefixCheckIsFirstLetter(p: string)
    ensures PassesPrefixCheck(p) <==> StartsQA(p)
  {
    if StartsQA(p) {
      assert p[..1] == [p[0]];
    }
  }

  /** What one raw prompt line contributes: at most one message. */
  function ClassifyLine(raw: string): Option<Message> {
    var p := Strip(raw);
    if PassesPrefixCheck(p) then MatchQa(p) else None
  }

  /** The messages of a list of prompt lines, in line order. */
  function ClassifyAll(prompts: seq<string>): seq<Message> {
    FilterMap(prompts, ClassifyLine)
  }

  /** A line yields exactly what the regex yields on the stripped line; a line
      that does not start with `Q` or `A` once stripped yields nothing; every
      message has a well-formed type and a stripped text without line feeds. */
  lemma ClassifyLineSpec(raw: string)
    ensures ClassifyLine(raw) == MatchQa(Strip(raw))
    ensures !StartsQA(Strip(raw)) ==> ClassifyLine(raw) == None
    ensures ClassifyLine(raw).Some? ==>
      IsMessageType(ClassifyLine(raw).value.kind) &&
      IsStripped(ClassifyLine(raw).value.text) && NoNewline(ClassifyLine(raw).value.text)
  {
    PrefixCheckIsFirstLetter(Strip(raw));
    if ClassifyLine(raw).Some? {
      MatchQaSound(Strip(raw), ClassifyLine(raw).value);
    }
  }

  /** Classification works line by line: the messages of a concatenation are
      the messages of each part, in order. */
  lemma ClassifyAllAppend(a: seq<string>, b: seq<string>)
    ensures ClassifyAll(a + b) == ClassifyAll(a) + ClassifyAll(b)
  {
    FilterMapAppend(a, b, ClassifyLine);
  }

  /** At most one message per line; each message comes from its own line, the
      lines in increasing order; every line that classifies is one of them;
      and every message has a `[QA]\d*` type and a stripped, single-line text. */
  lemma ClassifyAllProvenance(prompts: seq<string>) returns (idx: seq<nat>)
    ensures |ClassifyAll(prompts)| <= |prompts|
    ensures |idx| == |ClassifyAll(prompts)|
    ensures forall k :: 0 <= k < |idx| ==>
      idx[k] < |prompts| && ClassifyLine(prompts[idx[k]]) == Some(ClassifyAll(prompts)[k])
    ensures forall k, l :: 0 <= k < l < |idx| ==> idx[k] < idx[l]
    ensures forall i :: 0 <= i < |prompts| && ClassifyLine(prompts[i]).Some? ==> i in idx
    ensures forall k :: 0 <= k < |ClassifyAll(prompts)| ==>
      var m := ClassifyAll(prompts)[k];
      IsMessageType(m.kind) && IsStripped(m.text) && NoNewline(m.text)
  {
    idx := FilterMapProvenance(prompts, ClassifyLine);
    forall k | 0 <= k < |idx| ensures
      var m := ClassifyAll(prompts)[k];
      IsMessageType(m.kind) && IsStripped(m.text) && NoNewline(m.text)
    {
      ClassifyLineSpec(prompts[idx[k]]);
    }
  }

  // ---------------------------------------------------------------------------
  // The `users` mapping: `{str(key): str(value) for key, value in users.items()}`.

  /** A YAML scalar as loaded: string, integer, boolean or null. */
  datatype Scalar = Str(s: string) | Int(i: int) | Bool(b: bool) | Null

  /** Python's `str()` on a scalar. */
  function PyStr(x: Scalar): string {
    match x
    case Str(s) => s
    case Int(i) => IntToString(i)
    case Bool(b) => if b then "True" else "False"
    case Null => "None"
  }

  /** The normalised users map; `users` lists the YAML mapping's entries in
      order (empty when the key is absent or null). */
  function NormalizeUsers(users: seq<(Scalar, Scalar)>): map<string, string> {
    ItemsToMap(users, PyStr, PyStr)
  }

  /** Every key is printed with `str()`, no other key appears, and when two
      keys print the same (`1` and `"1"`), the later entry's value is kept. */
  lemma NormalizeUsersSpec(users: seq<(Scalar, Scalar)>, i: nat)
    requires i < |users|
    requires forall j :: i < j < |users| ==> PyStr(users[j].0) != PyStr(users[i].0)
    ensures forall k :: k in NormalizeUsers(users) <==> exists j :: 0 <= j < |users| && PyStr(users[j].0) == k
    ensures NormalizeUsers(users)[PyStr(users[i].0)] == PyStr(users[i].1)
  {
    ItemsToMapKeys(users, PyStr, PyStr);
    ItemsToMapLast(users, PyStr, PyStr, i);
  }

  /** The keys of the normalised map are exactly `str()` of the YAML keys, for
      every list of entries. */
  lemma NormalizeUsersKeys(users: seq<(Scalar, Scalar)>)
    ensures forall k :: k in NormalizeUsers(users) <==> exists j :: 0 <= j < |users| && PyStr(users[j].0) == k
  {
    ItemsToMapKeys(users, PyStr, PyStr);
  }

  // ---------------------------------------------------------------------------
  // extract_qa_messages: the loaded YAML document in, messages and initials out.

  /** What reading and parsing the YAML file gave: the file was missing, it
      could not be read or parsed, or it held the `prompts` lines and the
      `users` entries (both empty when absent). */
  datatype YamlDoc = Missing | Unreadable | Loaded(prompts: seq<string>, users: seq<(Scalar, Scalar)>)

  method ExtractQaMessages(doc: YamlDoc) returns (messages: seq<Message>, users: map<string, string>)
    ensures doc.Loaded? ==> messages == ClassifyAll(doc.prompts) && users == NormalizeUsers(doc.users)
    ensures !doc.Loaded? ==> messages == [] && users == map[]
  {
    if !doc.Loaded? {
      return [], map[];
    }
    users := NormalizeUsers(doc.users);
    var prompts := doc.prompts;
    messages := [];
    for i := 0 to |prompts|
      invariant messages == ClassifyAll(prompts[..i])
    {
      assert prompts[..i + 1] == prompts[..i] + [prompts[i]];
      FilterMapSnoc(prompts[..i], prompts[i], ClassifyLine);
      var prompt := Strip(prompts[i]);
      if PassesPrefixCheck(prompt) {
        var m := MatchQa(prompt);
        if m.Some? {
          messages := messages + [m.value];
        }
      }
    }
    assert prompts[..|prompts|] == prompts;
  }

  // ---------------------------------------------------------------------------
  // generate_html: the serialised messages and initials go into the template.

  const MessagesSlot: string := "{messages_json}"
  const UsersSlot: string := "{user_initials_json}"

  /** Neither placeholder occurs in `s`. */
  predicate SlotFree(s: string) {
    !Contains(s, MessagesSlot) && !Contains(s, UsersSlot)
  }

  /** Both placeholders open with their only brace and differ right after it. */
  lemma SlotsArePair()
    ensures SlotPair(MessagesSlot, UsersSlot)
  {
  }

  /** The page as the source builds it: two successive replace-all passes, the
      second of which also scans the messages JSON inserted by the first. The
      template and the two `json.dumps` results are inputs. */
  function GenerateHtml(template: string, messagesJson: string, usersJson: string): string {
    ReplaceAll(ReplaceAll(template, MessagesSlot, messagesJson), UsersSlot, usersJson)
  }

  /** With a template holding each placeholder once, the source's page embeds
      both JSON texts where the placeholders were, as long as the messages JSON
      does not itself spell the initials placeholder. */
  lemma GenerateHtmlFillsSlots(pre: string, mid: string, post: string, messagesJson: string, usersJson: string)
    requires SlotFree(pre) && SlotFree(mid) && SlotFree(post)
    requires !Contains(pre + messagesJson + mid, UsersSlot)
    ensures GenerateHtml(pre + MessagesSlot + mid + UsersSlot + post, messagesJson, usersJson)
         == pre + messagesJson + mid + usersJson + post
  {
    SlotsArePair();
    ReplaceInTurn(pre, mid, post, MessagesSlot, UsersSlot, messagesJson, usersJson);
  }

  /** The placeholders filled in one pass over the template, so that neither
      inserted text is scanned for placeholders. */
  function FillTemplate(template: string, messagesJson: string, usersJson: string): string {
    ReplaceBoth(template, MessagesSlot, messagesJson, UsersSlot, usersJson)
  }

  /** The intended page: both JSON texts embedded verbatim, whatever they hold. */
  lemma FillTemplateEmbedsVerbatim(pre: string, mid: string, post: string, messagesJson: string, usersJson: string)
    requires SlotFree(pre) && SlotFree(mid) && SlotFree(post)
    ensures FillTemplate(pre + MessagesSlot + mid + UsersSlot + post, messagesJson, usersJson)
         == pre + messagesJson + mid + usersJson + post
  {
    SlotsArePair();
    ReplaceBothOnce(pre, mid, post, MessagesSlot, UsersSlot, messagesJson, usersJson);
  }

  /** The discrepancy: when the messages JSON spells the initials placeholder
      (a message whose text contains it), the second pass rewrites it, so the
      initials JSON is spliced into that message's string literal, while the
      one-pass fill keeps the text; the two pages differ for every initials
      JSON. An initials JSON with line feeds or quotes then breaks the page's
      script altogether. */
  lemma GenerateHtmlRewritesMessageText(pre: string, mid: string, post: string,
                                        open: string, close: string, usersJson: string)
    requires SlotFree(pre) && SlotFree(mid) && SlotFree(post)
    requires !Contains(pre + open, UsersSlot) && !Contains(close + mid, UsersSlot)
    requires usersJson != UsersSlot
    ensures var template := pre + MessagesSlot + mid + UsersSlot + post;
            var messagesJson := open + UsersSlot + close;
      && GenerateHtml(template, messagesJson, usersJson)
         == pre + open + usersJson + close + mid + usersJson + post
      && FillTemplate(template, messagesJson, usersJson)
         == pre + messagesJson + mid + usersJson + post
      && GenerateHtml(template, messagesJson, usersJson) != FillTemplate(template, messagesJson, usersJson)
  {
    SlotsArePair();
    ReplaceInTurnRescans(pre, mid, post, open, close, MessagesSlot, UsersSlot, usersJson);
    FillTemplateEmbedsVerbatim(pre, mid, post, open + UsersSlot + close, usersJson);
    PagesDiffer(pre, open, close, mid, post, usersJson, UsersSlot);
  }

  /** Putting `u` where the page should keep `slot` changes the page. */
  lemma PagesDiffer(pre: string, open: string, close: string, mid: string, post: string, u: string, slot: string)
    requires u != slot
    ensures pre + open + u + close + mid + u + post != pre + (open + slot + close) + mid + u + post
  {
    var asWritten := pre + open + u + close + mid + u + post;
    var intended := pre + (open + slot + close) + mid + u + post;
    var at := |pre + open|;
    if |u| == |slot| {
      assert asWritten[at..at + |u|] == u;
      assert intended[at..at + |slot|] == slot;
    } else {
      assert |asWritten| != |intended|;
    }
  }
}
