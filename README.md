# align-demo: the line classifiers, the page helpers and the chat client, in Dafny

align-demo is a pair of scripts built around one YAML list of prompt lines.

- `summarize.py` turns the `Q...`/`A...` lines into typed chat messages and normalises the `users` initials map to strings. It then puts both, serialised, into a static HTML page. The script embedded in that page decides each bubble's side and avatar and shows the replay time as `MM:SS`.
- `chatgpt_client.py` picks out the `P:` lines, sends them to a chat-completion service as one conversation, and turns the answer, or the exception, into a success/failure record. `print_results` folds a list of `send_prompt` records into a count of successful requests and a sum of tokens.

This project models that logic and proves what it promises.

| file | module | models |
|---|---|---|
| `wrappers.dfy` | `Wrappers` | `Option` and `Result` |
| `text.dfy` | `Text` | `str.strip`, `startswith`, `str.replace`, `str(int)`, the ASCII classes `\s`, `\d` and `.`, JavaScript `String(n)` and `padStart` |
| `lists.dfy` | `Lists` | the shape of both line loops (at most one output per line) and a dict built from items |
| `summarize.dfy` | `Summarize` | `extract_qa_messages`: the pattern `^([QA]\d*):?\s*(.*)$` as a hand-written greedy matcher, the classification loop, the users normalisation, and `generate_html` |
| `page.dfy` | `Page` | the page's `getInitialsForAnswer`, `buildMessageElement` (which side, logo or avatar) and `formatDuration` |
| `chat_client.dfy` | `ChatClient` | `process_prompt_lines`, the request message lists of `send_prompt` and `process_prompts_as_conversation`, the client constructor, the result records and `print_results` |
| `classifiers.dfy` | `LineClasses` | how the transcript classifier and the client's directive extractor relate, and worked lines |

Some inputs are parameters of the model rather than computed by it:

- `ExtractQaMessages` takes the loaded YAML document (`YamlDoc`): a missing file, an unreadable one, or the `prompts` lines and `users` entries.
- `GenerateHtml` takes the template text and the two `json.dumps` results.
- `NewClient` takes the environment's `OPENAI_API_KEY`.
- `SendPrompt` and `ProcessPromptsAsConversation` take the remote call as a function from the request to what happened: `Raised(message)`, or `Returned(choices, usage)`.

Characters are restricted to ASCII. Whitespace means the ten characters Python counts as whitespace there: tab to carriage return, 0x1C to 0x1F, and space. Digits are `0` to `9`.

Some of the code's behaviour is easy to misread; the model follows the code:

- `getInitialsForAnswer` falls back to `default` when the numbered entry is absent, and also when its value is the empty string, because JavaScript `||` treats `""` as false. The same holds for `default` before `BG`.
- A failure record's `error` is `str(e)`, which can be the empty string.
- A success record's `response` is the first choice's message content. That content can be `None`, so it is an `Option`.
- A line like `Quiet please` is a question with text `uiet please`. The `startswith` chain admits every line that starts with `Q` or `A`, and the colon is optional.

## Model

| member | source | states |
|---|---|---|
| Text.Strip | summarize.py:31 | the result has no whitespace at either end |
| Text.TrimLeft | summarize.py:31 | `lstrip`: the result does not start with whitespace |
| Text.TrimRight | summarize.py:31 | `rstrip`: the result does not end in whitespace |
| Text.StripSurrounds | summarize.py:31 | the result sits inside the input with only whitespace before it and only whitespace after it |
| Text.StripUnique | chatgpt_client.py:193 | stripping whitespace + a stripped non-empty core + whitespace gives back exactly that core |
| Text.TrimLeftOfSpaces | chatgpt_client.py:193 | `lstrip` removes exactly the whitespace in front of a text that starts with none |
| Text.TrimRightOfSpaces | chatgpt_client.py:193 | `rstrip` removes exactly the whitespace after a text that ends in none |
| Text.StripStripped | chatgpt_client.py:198 | stripping is idempotent: a stripped string is its own strip |
| Text.NatToString | summarize.py:26 | `str(n)` is a non-empty run of digits with no leading zero unless it is `0` |
| Text.ParseNatToString | summarize.py:26 | the decimal numeral reads back as the number |
| Text.IntToString | summarize.py:26 | `str(i)` is never empty and starts with `-` exactly when `i` is negative |
| Text.IntToStringReadsBack | summarize.py:26 | `str(i)` reads back as `i`: all digits with value `i` when `i` is not negative, else `-` followed by digits with value `-i` |
| Text.PadStart | summarize.py:589-590 | `padStart` has the larger of the two lengths and is fill characters followed by the input |
| Text.ParseNatLeadingZeros | summarize.py:589-590 | leading zeros do not change the value of a numeral |
| Text.ReplaceAll | summarize.py:599-600 | Python's `str.replace`: non-overlapping occurrences replaced left to right, the inserted text not scanned again; characterised by `Text.ReplaceAllAtOccurrence`, `Text.ReplaceAllSkips`, `Text.ReplaceAllAbsent`, `Text.ReplaceOnce` and `Text.ReplaceTwice` |
| Text.ReplaceAllAtOccurrence | summarize.py:599-600 | where an occurrence of the pattern starts, `str.replace` emits the replacement and continues after the occurrence |
| Text.ReplaceAllSkips | summarize.py:599-600 | `str.replace` leaves a prefix with no occurrence untouched |
| Text.ReplaceAllAbsent | summarize.py:599-600 | `str.replace` on a string without the pattern changes nothing |
| Text.ReplaceOnce | summarize.py:599-600 | replacing a placeholder that occurs once substitutes exactly that occurrence |
| Text.ReplaceTwice | summarize.py:599-600 | replacing a placeholder that occurs twice substitutes both occurrences and nothing else |
| Text.ReplaceFirstSlot | summarize.py:599 | the first pass replaces the messages placeholder only, leaving the initials placeholder after it |
| Text.ReplaceInTurn | summarize.py:597-601 | two successive replace-all passes fill both placeholders when the first inserted text does not spell the second placeholder |
| Text.ReplaceInTurnRescans | summarize.py:597-601 | when the first inserted text spells the second placeholder, the second pass rewrites it as well |
| Text.ReplaceBothAbsent | summarize.py:597-601 | a one-pass replacement changes nothing in a text without either placeholder |
| Text.ReplaceBothOnce | summarize.py:597-601 | a one-pass replacement of both placeholders fills them verbatim, whatever the inserted texts hold |
| Lists.FilterMapAppend | summarize.py:29-42 | a line loop with at most one output per line works line by line: the outputs of a concatenation are the outputs of each part |
| Lists.FilterMapProvenance | summarize.py:29-42 | every output comes from its own line, the lines in increasing order, and every line with an output is among them |
| Lists.FilterMapCount | chatgpt_client.py:192-199 | the number of outputs is the number of lines that have one |
| Lists.ItemsToMapKeys | summarize.py:25-27 | a dict comprehension has exactly the converted keys of the items |
| Lists.ItemsToMapLast | summarize.py:25-27 | when two items give the same key, the later item's value is kept |
| Summarize.DigitsEnd | summarize.py:38 | `\d*` stops at the first non-digit and everything it consumed is digits |
| Text.SpaceRunEnd | summarize.py:38 | `\s*` stops at the first non-whitespace character and everything it consumed is whitespace |
| Text.SpaceRunEndExact | summarize.py:38 | a run of whitespace followed by a non-whitespace character or the end is exactly what `\s*` consumes |
| Summarize.MatchQa | summarize.py:38-42 | a match only happens on a line starting with `Q` or `A`; its type is `[QA]\d*` and its text has no line feed |
| Summarize.MatchQaComplete | summarize.py:38-41 | every greedy split of a line into type, optional colon, whitespace and line-feed-free text is what the pattern returns (`Q12abc` gives `Q12`, `abc`) |
| Summarize.MatchQaSound | summarize.py:31-41 | on a stripped line every match is such a greedy split, and the text neither starts nor ends with whitespace |
| Summarize.MatchQaTotal | summarize.py:32-42 | a line starting with `Q` or `A` with no line feed always matches, so it is never silently dropped |
| Summarize.MatchQaDropsNewline | summarize.py:38 | a stripped line with a line feed after the start of its text fails `.*$` and is dropped |
| Summarize.PrefixCheckIsFirstLetter | summarize.py:32-35 | the eight-way `startswith` chain holds exactly when the line starts with `Q` or `A` |
| Summarize.ClassifyLine | summarize.py:31-42 | what one prompt line contributes: the pattern's match on the stripped line when it passes the `startswith` chain, else nothing; characterised by `Summarize.ClassifyLineSpec` |
| Summarize.ClassifyAll | summarize.py:30-42 | the messages of the prompt lines in line order; characterised by `Summarize.ClassifyAllAppend` and `Summarize.ClassifyAllProvenance` |
| Summarize.ClassifyLineSpec | summarize.py:31-42 | a line yields what the pattern yields on the stripped line, nothing when the stripped line does not start with `Q` or `A`, and a message has a well-formed type and a stripped single-line text |
| Summarize.ClassifyAllAppend | summarize.py:30-42 | classifying a concatenation of prompt lists gives the messages of each part, in order |
| Summarize.ClassifyAllProvenance | summarize.py:29-44 | at most one message per line, in line order, every classifying line represented, every message well formed |
| Summarize.PyStr | summarize.py:26 | Python's `str()` of a YAML string, integer, boolean or null; its integer case is `Text.IntToString`, characterised by `Text.IntToStringReadsBack` |
| Summarize.NormalizeUsers | summarize.py:25-27 | the dict comprehension over the YAML `users` entries; characterised by `Summarize.NormalizeUsersSpec` |
| Summarize.NormalizeUsersKeys | summarize.py:25-27 | for every list of entries, the keys are exactly `str()` of the YAML keys |
| Summarize.NormalizeUsersSpec | summarize.py:25-27 | the keys are exactly `str()` of the YAML keys, and the last entry printing to a key supplies its value |
| Summarize.ExtractQaMessages | summarize.py:11-44 | the loop's messages are the classification of the prompt lines and the users are normalised; a missing or unreadable file gives no messages and no users |
| Summarize.SlotsArePair | summarize.py:427-428 | the two placeholders each open with their only brace and differ right after it |
| Summarize.GenerateHtml | summarize.py:597-601 | the two successive `replace` passes over the template; characterised by `Summarize.GenerateHtmlFillsSlots` and `Summarize.GenerateHtmlRewritesMessageText` |
| Summarize.FillTemplate | summarize.py:597-601 | the intended one-pass fill of both placeholders; characterised by `Summarize.FillTemplateEmbedsVerbatim` |
| Summarize.GenerateHtmlFillsSlots | summarize.py:597-601 | the page embeds both JSON texts where the placeholders were, as long as the messages JSON does not spell the initials placeholder |
| Summarize.FillTemplateEmbedsVerbatim | summarize.py:597-601 | the one-pass fill embeds both JSON texts verbatim |
| Summarize.GenerateHtmlRewritesMessageText | summarize.py:597-601 | a messages JSON that spells the initials placeholder gets the initials JSON written into it, so the page differs from the verbatim fill |
| Page.AnswerDigits | summarize.py:477 | `/^a(\d+)/i` matches exactly when the type is `a` or `A` followed by a digit, and captures all the digits that follow |
| Page.InitialsForAnswer | summarize.py:476-481 | the initials are never empty and are either `BG` or a value of the users map |
| Page.InitialsFallback | summarize.py:476-481 | the answer's own non-empty entry is shown if there is one, else the non-empty `default`, else `BG` |
| Page.InitialsFromYamlKey | summarize.py:25-27 | an answer `A<n>` shows `str()` of the value of the YAML users entry with the integer key `n`, when that value is non-empty and no later entry's key prints as `n` (the comprehension keeps the last entry printing as `n`, and an empty value falls through to `default` at summarize.py:480) |
| Page.InitialsExample | summarize.py:476-481 | with users `1: AB` and `default: XY`, `A1` shows `AB`, and `A7` and `A` show `XY` |
| Page.BuildMessageElement | summarize.py:448-474 | the class, logo, avatar and text of a message's bubble; characterised by `Page.BubbleForMessage` |
| Page.BubbleForMessage | summarize.py:448-474 | a message is a question bubble with the logo exactly when its type starts with `Q`, and otherwise an answer bubble with a non-empty avatar label; its text is the message text |
| Page.JsRemainder | summarize.py:590 | JavaScript `%`, whose result takes the sign of the dividend; characterised by `Page.JsRemainderSpec` |
| Page.JsRemainderSpec | summarize.py:590 | JavaScript `%` by a positive divisor is smaller than the divisor in magnitude, has the sign of the dividend, and leaves a multiple of the divisor whose quotient is truncated toward zero |
| Page.PaddedNumeral | summarize.py:589-590 | a numeral padded to two digits is all digits and reads back as the number |
| Page.SecondsWidth | summarize.py:590 | seconds below a minute pad to exactly two characters |
| Page.ColonJoin | summarize.py:591 | two digit fields joined by a colon read back as the two numbers |
| Page.ClockFields | summarize.py:589-591 | the padded minutes and seconds, joined, read back as minutes and seconds |
| Page.FormatDuration | summarize.py:587-592 | the `MM:SS` display of a whole number of seconds; characterised by `Page.FormatDurationSpec`, `Page.FormatDurationExample` and `Page.FormatDurationNegative` |
| Page.FormatDurationSpec | summarize.py:587-592 | for a non-negative time the display is `MM:SS` with two-digit seconds below 60, minutes of at least two digits without superfluous zeros, and minutes * 60 + seconds equal to the time |
| Page.FormatDurationExample | summarize.py:587-592 | 75 seconds shows as `01:15` |
| Page.FormatDurationNegative | summarize.py:589-590 | a negative time keeps JavaScript's signs: -5 seconds shows as `-1:-5` |
| ChatClient.ProcessPromptLines | chatgpt_client.py:188-202 | the loop returns exactly the directives of the prompt lines |
| ChatClient.DirectiveOf | chatgpt_client.py:193-199 | what one prompt line contributes to the model: a stripped `P:` line's body, stripped again; characterised by `ChatClient.DirectiveOfSpec` |
| ChatClient.PromptDirectives | chatgpt_client.py:190-202 | the directives of the prompt lines in line order; characterised by `ChatClient.PromptDirectivesProvenance`, `ChatClient.PromptDirectivesCount` and `ChatClient.PromptDirectivesAppend` |
| ChatClient.DirectiveOfSpec | chatgpt_client.py:193-199 | a line gives a directive exactly when it starts with `P:` once stripped; the directive is the rest stripped again, so it has no whitespace at either end |
| ChatClient.PromptDirectivesProvenance | chatgpt_client.py:190-202 | exactly one directive per stripped `P:` line, in input order, each the line minus `P:` stripped again |
| ChatClient.PromptDirectivesCount | chatgpt_client.py:190-202 | the number of directives is the number of lines that give one |
| ChatClient.PromptDirectivesAppend | chatgpt_client.py:192-199 | directive extraction works line by line |
| ChatClient.BareDirective | chatgpt_client.py:196-199 | a bare `P:` gives the empty prompt |
| ChatClient.PaddedDirective | chatgpt_client.py:193-198 | a `P:` line with whitespace at its ends and after the prefix gives exactly its body |
| ChatClient.DisplayLineNoDirective | chatgpt_client.py:194-195 | a `Q:` line is displayed only and sends nothing |
| ChatClient.LowerCaseNoDirective | chatgpt_client.py:196-200 | a lower-case `p:` line is ignored |
| ChatClient.UserMessagesSpec | chatgpt_client.py:99-100 | one user entry per prompt, carrying the prompt, in order |
| ChatClient.ConversationMessages | chatgpt_client.py:93-100 | the conversation request: the system entry when there is one, then one user entry per prompt; characterised by `ChatClient.ConversationShape` |
| ChatClient.ConversationShape | chatgpt_client.py:93-100 | the request has one entry per prompt plus one for a non-empty system message; that entry comes first and is the only system entry, and the user entries reproduce the prompts in order |
| ChatClient.SinglePromptShape | chatgpt_client.py:40-45 | `send_prompt`'s request has one or two entries, the last being the user prompt, and two exactly when there is a system message |
| ChatClient.BuildPromptMessages | chatgpt_client.py:40-45 | the appends build the single-prompt request |
| ChatClient.BuildConversationMessages | chatgpt_client.py:93-100 | the appends build the conversation request |
| ChatClient.NewClient | chatgpt_client.py:14-27 | the client is made exactly when the given key or else the environment's key is non-empty; it keeps that key, and the given model or `gpt-3.5-turbo` when none is given; otherwise it fails with the `ValueError` text |
| ChatClient.ResultOf | chatgpt_client.py:59-80 | the record made from what the remote call did; characterised by `ChatClient.ResultOfSpec` (the same record shape is built at chatgpt_client.py:116-137) |
| ChatClient.ResultOfSpec | chatgpt_client.py:59-80 | every record is well shaped (a failure has no response and no usage and has an error; a success has no error and has a usage); it is a success exactly when the call returned a first choice and a usage, and then carries them; a raised exception's text is the error |
| ChatClient.SendPrompt | chatgpt_client.py:29-80 | the request holds the model, the single-prompt messages and the deterministic settings with 1000 tokens; the record is made from what the call did with it |
| ChatClient.ProcessPromptsAsConversation | chatgpt_client.py:82-137 | the request holds the model, the conversation messages and the deterministic settings with 2000 tokens; the record is made from what the call did with it |
| ChatClient.PrintResults | chatgpt_client.py:139-164 | the loop's counters are the number of successful records and the sum of their tokens |
| ChatClient.SuccessCount | chatgpt_client.py:153-158 | the number of successful records; characterised by `ChatClient.SuccessCountBound`, `ChatClient.AllSucceeded` and `ChatClient.SummaryAppend` |
| ChatClient.TokenSum | chatgpt_client.py:153-158 | the tokens of the successful records; characterised by `ChatClient.SummaryOverSuccesses` and `ChatClient.SummaryAppend` |
| ChatClient.AllTokensAppend | chatgpt_client.py:156 | token sums add up over a concatenation |
| ChatClient.SummaryOverSuccesses | chatgpt_client.py:153-158 | the counters are those of the successful records alone: their number, which is at most the number of records, and the sum of their tokens |
| ChatClient.SuccessCountBound | chatgpt_client.py:157-163 | there are at most as many successful requests as results |
| ChatClient.AllSucceeded | chatgpt_client.py:157-163 | the count equals the number of results exactly when every request succeeded |
| ChatClient.SummaryAppend | chatgpt_client.py:145-158 | the counts of two lists of results add up |
| ChatClient.RecordsSummarisable | chatgpt_client.py:59-80 | `send_prompt`'s records, success or failure, meet the fold's precondition: every success carries a usage |
| LineClasses.DirectiveAndMessageExclusive | chatgpt_client.py:194-199 | no line is both a directive for the model and a transcript message (summarize.py:31-42) |
| LineClasses.DirectiveIsNotQA | chatgpt_client.py:194-196 | a line starting with `P:` starts with neither `Q` nor `A` |
| LineClasses.StripOfSplit | chatgpt_client.py:198 | whitespace followed by a text that neither starts nor ends with whitespace strips to that text |
| LineClasses.ColonLineMatch | summarize.py:38-41 | `Q` or `A`, a colon, whitespace and a line-feed-free text not starting with whitespace match with the letter as type and that text |
| LineClasses.DisplayLineMatch | summarize.py:38-41 | on `Q:` or `A:` followed by a single-line rest that does not end in whitespace, the pattern gives the letter as type and the rest, stripped, as text |
| LineClasses.DisplayLineStripped | summarize.py:38-41 | on a stripped single line `Q:...` or `A:...` the pattern gives the first letter as type and the rest after the colon, stripped, as text |
| LineClasses.DisplayLineIsMessage | chatgpt_client.py:194-195 | every single-line display line of the client is a transcript message (summarize.py:31-42) of type `Q` or `A` with the stripped rest as text |
| LineClasses.DisplayLineSendsNothing | chatgpt_client.py:194-195 | a display line gives no directive |
| LineClasses.ClassifyStripped | summarize.py:31 | on a stripped line, classification is the pattern |
| LineClasses.QuietPleaseIsQuestion | summarize.py:38-41 | `Quiet please` is a question with text `uiet please` |
| LineClasses.GreedyDigits | summarize.py:38-41 | `Q12abc` is of type `Q12` with text `abc` |
| LineClasses.NumberedQuestion | summarize.py:38-41 | `Q1: What is X?` is of type `Q1` with text `What is X?` |
| LineClasses.NumberedQuestionIgnoredByClient | chatgpt_client.py:194-200 | the client neither displays nor sends `Q1: What is X?` |

## Left out

- File and YAML input are not modelled: opening and parsing `prompts.yaml` and the missing-file and parse-error fallbacks (summarize.py:13-23; chatgpt_client.py:168-185). `YamlDoc` stands for what the loader produced. Three inputs that raise outside the `try` are left out, because `YamlDoc` cannot represent them: non-string prompt lines, on which `.strip()` raises; `prompts: null`, which makes `for prompt in prompts` raise a TypeError (summarize.py:16, 30); and a `users` value that is neither a mapping nor empty, on which `.items()` raises an AttributeError (summarize.py:26).
- `load_prompts_from_yaml` is left out, including its fallback lists. It is a loader for the client's `main`, which is not modelled.
- Both scripts' `main` is left out. The client's `main` has an empty-prompt early exit and a default system message; the summariser's `main` prints a summary and writes `index.html`. Both are console output and file I/O.
- ChatClient.PrintResults: the fold is modelled over `send_prompt` records only; its parameter type and its precondition exclude the two ways the source's loop raises. A conversation record has a `prompts` key and no `prompt` key, so `result['prompt']` raises a KeyError on it (chatgpt_client.py:150). A success record without a usage makes `result['usage']['total_tokens']` raise a TypeError (chatgpt_client.py:155-156); `ResultOf` never builds one.
- Console printing everywhere is left out, including the `[Display]` echo of `Q:`/`A:` lines and every line of `print_results`. `PrintResults` returns the two counters it prints.
- The OpenAI client and the remote call are left out (chatgpt_client.py:26, 48-57, 105-114). The call is a parameter, and nothing is assumed of what it returns. The sampling settings are kept as request fields.
- The environment lookup `os.getenv('OPENAI_API_KEY')` is the parameter `envKey`.
- `json.dumps` is left out, along with `str()` of YAML values other than strings, integers, booleans and null. The serialised JSON texts are parameters of `GenerateHtml`.
- The static HTML/CSS template content is left out. Its two placeholders are taken to occur once each, in order, with no other occurrence.
- The DOM work is left out: element creation, `textContent`, scrolling, the typing animation, `Math.random` delays, `performance.now` and `setTimeout` (summarize.py:436-446, 483-585). Only the decisions `buildMessageElement` makes are modelled.
- FormatDuration: `Math.round(durationMs / 1000)` is floating point and is left out. The model starts from the whole number of seconds. Its properties are proved for non-negative times; a negative time is only shown by example.
- Unicode whitespace and digits, which Python's `\s`, `\d` and `str.strip` also accept, are left out. Only ASCII is modelled.
- Summarize.MatchQa: the pattern's `$` before a final line feed is modelled, though it cannot arise on a stripped line. Other regular-expression machinery is not modelled.

## Findings

| source | as written | input that shows it | evidently intended | confidence | as-written member | corrected member |
|---|---|---|---|---|---|---|
| summarize.py:597-601 | the second `.replace('{user_initials_json}', ...)` runs over the page after the messages JSON has been inserted, so it also rewrites that text inside a message | a prompt line `Q: write {user_initials_json} here`, whose message text makes the messages JSON contain the placeholder | each placeholder is replaced in the template only, with the message text shown verbatim | high (proved on the model; not executed) | Summarize.GenerateHtmlRewritesMessageText | Summarize.FillTemplateEmbedsVerbatim |
