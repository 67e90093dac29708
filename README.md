# manbot message handler in Dafny

manbot is a Discord bot. A message `man! <command>` or `man! <section> <command>`
makes it fetch a man page from a configured HTTP server. It then opens a thread
on the message and posts the page into it as a sequence of embeds (titled
cards). Everything the bot decides is in one handler in `main.go`:

- `messageCreate` parses the command.
- `manpage` resolves the section, splits the page into embeds and renders the
  thread.

This project models that handler and proves what it does.

Go strings are byte strings (`len`, slicing and `==` work on bytes), so every
text here is a `seq<byte>`. The 4096 limit is a byte count. The chunk separator
U+200B is its three UTF-8 bytes `E2 80 8B`. No claim is made about UTF-8
validity, because a 4096-byte cut can split a multi-byte character.

Modules, in dependency order:

- `Wrappers`: `Option`.
- `Bytes`: the `byte` type and the fixed texts. These are the trigger `man!`,
  the sentinel section `0`, space, newline and the zero width space.
- `GoStrings`: the parts of Go's `strings` package the handler uses. These are
  `Split` on one space, `SplitAfter` on the zero width space and
  `SplitN(s, "\n", 2)`, each with its documented meaning proved, and `Index`,
  which all three rest on.
- `Fetcher`: `getManPage` over an HTTP oracle. The oracle maps a URL to a
  response, or to `None` on a transport error.
- `Resolver`: the section probe loop for section `0`, and the classification
  of a single request's result into a reply.
- `Splitter`: cutting the body into chunks and each chunk into a title and a
  description, then the 4096-byte pagination loop.
- `Dispatcher`: the command parser.
- `Handler`: the whole handler. Its observable behaviour is a trace of
  `Action`s: `Get(url)`, `SendMessage`, `StartThread` and
  `SendEmbed(thread, embed, ok)`.

The network, thread creation and the outcome of each embed post are oracles in
`Env`. The methods `ResolveSection`, `Paginate`, `BuildEmbeds`, `PostEmbeds`,
`RenderThread`, `Manpage` and `MessageCreate` keep the loops and early
returns of the Go code. Each is proved equal to a specification function:
`Resolution`/`Requested`, `Pages`, `EmbedsOf`, `Posts`, `RenderTrace`,
`ManpageTrace` and `HandlerTrace`. The lemmas state the properties of those
functions.

Behaviour to note:

- Only the exact section `0` triggers the probe. Any other section, numeric or
  not, is requested as given.
- The 4096 limit counts bytes.
- Processing stops at the first chunk without a newline; that chunk and every
  later one add no embed.

## Model

| member | source | states |
|---|---|---|
| `GoStrings.Split` | main.go:67 | the message is cut into at least one word and no word holds a space |
| `GoStrings.JoinSplit` | main.go:67 | joining the words with single spaces gives back the message text |
| `GoStrings.SplitJoin` | main.go:67 | splitting space-free words joined by single spaces gives back exactly those words |
| `GoStrings.IndexOf` | main.go:143 | `strings.Index`, which `SplitN` and `SplitAfter` rest on: the result is the first position where the separator occurs, or None when it occurs nowhere |
| `GoStrings.SplitAfter` | main.go:137 | the chunks number at least one and, put back together, give the body unchanged |
| `GoStrings.SplitAfterPieces` | main.go:137 | every chunk but the last ends with the zero width space, which occurs nowhere earlier in it; the last chunk holds none |
| `GoStrings.SplitN2` | main.go:143-147 | one piece (the whole chunk) exactly when there is no newline; otherwise title, newline and rest give back the chunk, with the cut at the first newline |
| `Dispatcher.ParseCommandShapes` | main.go:62-79 | a lookup of (s, c) happens exactly when the message is not the bot's own and reads "man! c" with s = "0", or "man! s c", where s and c hold no space |
| `Dispatcher.ParseCommand` | main.go:63-78 | the decision between ignoring the message and looking up (section, command); its meaning is stated by `Dispatcher.ParseCommandShapes` and `Dispatcher.IgnoredShapes` |
| `Dispatcher.IgnoredShapes` | main.go:63-78 | a message is ignored exactly when it is the bot's own, its first word is not "man!", or it has neither 2 nor 3 words |
| `Fetcher.Url` | main.go:82 | the URL requested, server + section + "/" + command; used by `Fetcher.GetManPage` and stated for the probe by `Handler.ProbedThreadName` |
| `Fetcher.GetManPage` | main.go:81-92 | the request goes to server + section + "/" + command; a transport error gives status 0, an empty body and the error; otherwise the server's status and whole body with no error |
| `Resolver.Classify` | main.go:115-134 | the reply to one explicit request; its cases are stated by `Resolver.ExplicitSection` |
| `Resolver.Digit` | main.go:100 | `strconv.Itoa` of a one-digit section is the single ASCII digit |
| `Resolver.FirstHit` | main.go:99-104 | the result is the smallest section from `from` to 9 that answers 200, or None exactly when none does |
| `Resolver.ResolveSection` | main.go:94-135 | the outcome is `Resolution` and the sections requested, in order, are `Requested` (sections 1 to the hit, or 1 to 9, or the one explicit section) |
| `Resolver.ProbeFindsSmallest` | main.go:98-105 | with section "0" a page is found exactly when some section 1..9 answers 200; it is the smallest such k, with k's body, and only sections 1..k are requested |
| `Resolver.ProbeExhausted` | main.go:106-109 | with section "0" and no section answering 200, all nine are requested and the reply is "No manpage found for " + command |
| `Resolver.ExplicitSection` | main.go:113-134 | an explicit section is requested once; a transport error or 500 gives "Internal server error", 404 gives "No manpage found for " + section + " " + command, any other non-200 gives "Unknown error", and 200 renders the body under that section |
| `Splitter.EmbedsOfBody` | main.go:137-162 | the embeds of a body: its chunks, each cut at its first newline and paged; stated by `Splitter.ChunkRoundTrip`, `Splitter.EmbedsBounded`, `Splitter.StopsAtFirstLineless`, `Splitter.EmbedsInOrder` and `Splitter.ExampleEmbeds` |
| `Splitter.Paginate` | main.go:148-161 | the pagination loop returns exactly the pages of the description |
| `Splitter.BuildEmbeds` | main.go:140-162 | the chunk loop with its break returns exactly the embeds of the chunks |
| `Splitter.PagesBounded` | main.go:149-161 | a description yields at least one embed; all carry the chunk's title and at most 4096 bytes, and all but the last exactly 4096 |
| `Splitter.PagesRoundTrip` | main.go:149-161 | the pages' descriptions, joined in emission order, give back the description |
| `Splitter.PagesCount` | main.go:149-161 | a non-empty description of n bytes yields ceil(n / 4096) embeds with a non-empty last one; an empty description yields exactly one embed with an empty description |
| `Splitter.Pages9000` | main.go:149-161 | a 9000-byte description yields three embeds of 4096, 4096 and 808 bytes |
| `Splitter.EmbedsBounded` | main.go:141-162 | no embed built from any chunks has a description longer than 4096 bytes |
| `Splitter.ChunkRoundTrip` | main.go:143-161 | for a chunk with a newline, the title holds no newline, every embed of the chunk carries it, and title + newline + the descriptions in order give back the chunk, trailing zero width space included |
| `Splitter.StopsAtFirstLineless` | main.go:141-147 | the first chunk without a newline ends processing: neither it nor any later chunk adds an embed |
| `Splitter.EmbedsInOrder` | main.go:141-162 | while chunks have newlines, they contribute their embeds in body order |
| `Splitter.ExampleChunks` | main.go:137 | the body "foo\n\nbar" U+200B "baz\nqux" is cut into exactly the two chunks "foo\n\nbar" U+200B and "baz\nqux" |
| `Splitter.ExampleEmbeds` | main.go:137-161 | that body gives exactly the embeds ("foo", "\nbar" U+200B) and ("baz", "qux"): each chunk is cut at its first newline only |
| `Handler.ThreadName` | main.go:164 | "man " + section + " " + command, with the resolved section; stated by `Handler.FoundStartsThread` and `Handler.ProbedThreadName` |
| `Handler.PostEmbeds` | main.go:170-175 | every embed is posted into the thread, in order, with its own outcome; a failed post does not stop the later ones |
| `Handler.RenderThread` | main.go:163-176 | the thread is started and, only if that worked, every embed is posted into it (`RenderTrace`) |
| `Handler.Manpage` | main.go:94-177 | the calls made are exactly `ManpageTrace`: the requests, then either one reply or the thread and its embeds |
| `Handler.MessageCreate` | main.go:62-79 | the calls made are exactly `HandlerTrace`: none for an ignored message, otherwise those of `manpage` with the parsed section and command |
| `Handler.IgnoredMessage` | main.go:63-71 | a message that is not a command makes no call at all |
| `Handler.FailureRepliesOnly` | main.go:106-134 | a failed resolution makes only its requests and then sends its one reply to the message's channel: no thread, no embed |
| `Handler.FoundStartsThread` | main.go:163-168 | after a successful resolution the requests are followed by one thread start named "man " + resolved section + " " + command, and no plain reply is sent |
| `Handler.ThreadFailurePostsNothing` | main.go:164-168 | when the thread cannot be started, the calls are the requests followed by the thread start alone: nothing is posted |
| `Handler.ThreadPostsEveryEmbed` | main.go:170-175 | once the thread exists every embed of the body is posted into it, in order, whatever the outcomes of earlier posts, and each description has at most 4096 bytes |
| `Handler.TransportErrorIsMiss` | main.go:99-104 | during the probe a transport error counts as a miss, so probing goes on |
| `Handler.ProbedThreadName` | main.go:98-164 | for "man! c" with smallest answering section k, the first k requests are sections 1..k in order, and the thread is named "man k c" after the resolved section, not "0" |
| `Handler.ProbeFailsReply` | main.go:98-109 | for "man! c" with no section answering 200, the calls are the nine requests and then the one reply "No manpage found for c" |

## Left out

- Discord session setup, intents, handler registration, `Open`/`Close` and waiting for a signal (main.go:28-60): platform I/O and process lifetime.
- Loading `config.toml` and the checks for missing keys (main.go:29-40): file I/O through a foreign library. `man.server` is the `Env.server` parameter and the bot's user id is `Env.botId`.
- The HTTP GET itself, reading the body and closing it (main.go:82-91): network I/O. It is the `Env.http` oracle. The discarded error of `ioutil.ReadAll` is not modelled; the body is whatever the oracle returns.
- Thread creation and embed posting (main.go:164-175): platform calls. They are the oracles `Env.startThread` (a thread id, or None on error) and `Env.embedSent` (the outcome of the i-th post). The error messages printed for them are not modelled.
- All `fmt.Println` logging, including the `string(status)` conversion at main.go:130: diagnostics only.
- Concurrent invocations of the handler: the handler shares no mutable state, so each invocation is modelled on its own.
- Resolver.Digit: models `strconv.Itoa` only for 0..9, the only values the probe passes it.
- GoStrings.Split, GoStrings.SplitAfter, GoStrings.SplitN2, GoStrings.IndexOf: defined by the meaning of Go's `strings` functions, not by the library's code. `SplitAfter` cuts after successive first occurrences, which is the same as Go's count-then-cut loop.
- Discord's own limits on embeds (title length, number of embeds) and its validation of them: platform behaviour the code does not check.
