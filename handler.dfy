/**
 * The whole message handler (`messageCreate` and `manpage`, main.go,
 * lines 62-177) as the trace of calls it makes to the outside world. The
 * HTTP server, thread creation and embed posting are oracles in `Env`.
 */
module Handler {

  import opened Wrappers
  import opened Bytes
  import opened Fetcher
  import opened Resolver
  import opened Splitter
  import opened Dispatcher

  /** The parts of a Discord message the handler reads. */
  datatype Message = Message(authorId: seq<byte>, channelId: seq<byte>, id: seq<byte>, content: seq<byte>)

  /**
   * The world the handler runs in: the bot's own user id, the configured
   * `man.server`, the HTTP oracle, thread creation (channel, message and
   * name to a thread id, or None on error) and whether the i-th embed post
   * of the invocation succeeds.
   */
  datatype Env = Env(
    botId: seq<byte>,
    server: seq<byte>,
    http: seq<byte> -> Option<HttpResponse>,
    startThread: (seq<byte>, seq<byte>, seq<byte>) -> Option<seq<byte>>,
    embedSent: nat -> bool)

  /** One call of the handler into the outside world, with what it learnt where that matters. */
  datatype Action =
    | Get(url: seq<byte>)
    | SendMessage(channel: seq<byte>, text: seq<byte>)
    | StartThread(channel: seq<byte>, message: seq<byte>, name: seq<byte>, archiveMinutes: int)
    | SendEmbed(thread: seq<byte>, embed: Embed, ok: bool)

  /** The auto-archive duration of the thread, in minutes. */
  const ArchiveMinutes: int := 60

  /** getManPage against the configured server. */
  function FetchOf(env: Env): Fetch
  {
    (section: seq<byte>, command: seq<byte>) => GetManPage(env.server, env.http, section, command)
  }

  /** "man " + section + " " + command. */
  function ThreadName(section: seq<byte>, command: seq<byte>): seq<byte>
  {
    Ascii("man ") + section + [Space] + command
  }

  /** The GET requests for the requested sections. */
  function Gets(env: Env, sections: seq<seq<byte>>, command: seq<byte>): seq<Action>
  {
    seq(|sections|, i requires 0 <= i < |sections| => Get(Url(env.server, sections[i], command)))
  }

  /** One post per embed, in order, each with its outcome. */
  function Posts(env: Env, thread: seq<byte>, embeds: seq<Embed>): seq<Action>
  {
    seq(|embeds|, i requires 0 <= i < |embeds| => SendEmbed(thread, embeds[i], env.embedSent(i)))
  }

  /** Start the thread; post every embed into it only if that worked. */
  function RenderTrace(env: Env, m: Message, name: seq<byte>, embeds: seq<Embed>): seq<Action>
  {
    [StartThread(m.channelId, m.id, name, ArchiveMinutes)] +
    match env.startThread(m.channelId, m.id, name)
    case None => []
    case Some(thread) => Posts(env, thread, embeds)
  }

  /** What `manpage` does: the requests, then one reply or the thread and its embeds. */
  function ManpageTrace(env: Env, m: Message, section: seq<byte>, command: seq<byte>): seq<Action>
  {
    var fetch := FetchOf(env);
    Gets(env, Requested(fetch, section, command), command) +
    match Resolution(fetch, section, command)
    case Reply(text) => [SendMessage(m.channelId, text)]
    case Found(resolved, body) => RenderTrace(env, m, ThreadName(resolved, command), EmbedsOfBody(body))
  }

  /** What `messageCreate` does with a message. */
  function HandlerTrace(env: Env, m: Message): seq<Action>
  {
    match ParseCommand(m.authorId == env.botId, m.content)
    case Ignored => []
    case Lookup(section, command) => ManpageTrace(env, m, section, command)
  }

  /** The posting loop: every embed is posted, a failed post does not stop the later ones. */
  method PostEmbeds(env: Env, thread: seq<byte>, embeds: seq<Embed>) returns (posts: seq<Action>)
    ensures posts == Posts(env, thread, embeds)
  {
    posts := [];
    for i := 0 to |embeds|
      invariant |posts| == i
      invariant forall j | 0 <= j < i :: posts[j] == SendEmbed(thread, embeds[j], env.embedSent(j))
    {
      var ok := env.embedSent(i);
      posts := posts + [SendEmbed(thread, embeds[i], ok)];
    }
  }

  /** Lines 163-176: start the thread; on error stop, otherwise post every embed into it. */
  method RenderThread(env: Env, m: Message, name: seq<byte>, embeds: seq<Embed>) returns (trace: seq<Action>)
    ensures trace == RenderTrace(env, m, name, embeds)
  {
    trace := [StartThread(m.channelId, m.id, name, ArchiveMinutes)];
    match env.startThread(m.channelId, m.id, name)
    case None =>
    case Some(thread) =>
      var posts := PostEmbeds(env, thread, embeds);
      trace := trace + posts;
  }

  /** `manpage`: resolve, split, render. */
  method Manpage(env: Env, m: Message, section: seq<byte>, command: seq<byte>) returns (trace: seq<Action>)
    ensures trace == ManpageTrace(env, m, section, command)
  {
    var outcome, requested := ResolveSection(FetchOf(env), section, command);
    var gets := Gets(env, requested, command);
    match outcome
    case Reply(text) =>
      trace := gets + [SendMessage(m.channelId, text)];
    case Found(resolved, body) =>
      var chunks := GoStrings.SplitAfter(body, ZeroWidthSpace);
      var embeds := BuildEmbeds(chunks);
      var rendered := RenderThread(env, m, ThreadName(resolved, command), embeds);
      trace := gets + rendered;
  }

  /** `messageCreate`: ignore the bot's own messages and anything but the two command shapes. */
  method MessageCreate(env: Env, m: Message) returns (trace: seq<Action>)
    ensures trace == HandlerTrace(env, m)
  {
    trace := [];
    if m.authorId == env.botId {
      return;
    }
    var words := GoStrings.Split(m.content, Space);
    if words[0] != Trigger {
      return;
    }
    if |words| == 2 {
      trace := Manpage(env, m, AnySection, words[1]);
    }
    if |words| == 3 {
      trace := Manpage(env, m, words[1], words[2]);
    }
  }

  /** A message that is not a command makes no call at all. */
  lemma IgnoredMessage(env: Env, m: Message)
    requires ParseCommand(m.authorId == env.botId, m.content) == Ignored
    ensures HandlerTrace(env, m) == []
  {
  }

  /**
   * A failed resolution ends with its one reply in the message's channel,
   * after the requests; no thread is started and no embed is posted.
   */
  lemma FailureRepliesOnly(env: Env, m: Message, section: seq<byte>, command: seq<byte>)
    requires Resolution(FetchOf(env), section, command).Reply?
    ensures var trace := ManpageTrace(env, m, section, command);
      && |trace| >= 1
      && trace[|trace| - 1] == SendMessage(m.channelId, Resolution(FetchOf(env), section, command).text)
      && forall i | 0 <= i < |trace| - 1 :: trace[i].Get?
  {
  }

  /**
   * After a successful resolution the requests are followed by the start
   * of one thread, named after the resolved section, and no plain reply is
   * sent at all.
   */
  lemma FoundStartsThread(env: Env, m: Message, section: seq<byte>, command: seq<byte>)
    requires Resolution(FetchOf(env), section, command).Found?
    ensures var fetch := FetchOf(env);
      var name := ThreadName(Resolution(fetch, section, command).section, command);
      var trace := ManpageTrace(env, m, section, command);
      var n := |Requested(fetch, section, command)|;
      && |trace| > n
      && (forall i | 0 <= i < n :: trace[i].Get?)
      && trace[n] == StartThread(m.channelId, m.id, name, ArchiveMinutes)
      && (forall i | 0 <= i < |trace| :: !trace[i].SendMessage?)
  {
  }

  /** If the thread cannot be started, starting it is the last call: nothing is posted. */
  lemma ThreadFailurePostsNothing(env: Env, m: Message, section: seq<byte>, command: seq<byte>)
    requires Resolution(FetchOf(env), section, command).Found?
    requires env.startThread(m.channelId, m.id,
      ThreadName(Resolution(FetchOf(env), section, command).section, command)) == None
    ensures var fetch := FetchOf(env);
      ManpageTrace(env, m, section, command) ==
        Gets(env, Requested(fetch, section, command), command) +
        [StartThread(m.channelId, m.id, ThreadName(Resolution(fetch, section, command).section, command), ArchiveMinutes)]
  {
  }

  /**
   * Once the thread exists, every embed of the body follows, in order,
   * posted into it whatever the outcome of the posts before it, and none
   * has a description longer than 4096 bytes.
   */
  lemma ThreadPostsEveryEmbed(env: Env, m: Message, section: seq<byte>, command: seq<byte>, thread: seq<byte>)
    requires Resolution(FetchOf(env), section, command).Found?
    requires env.startThread(m.channelId, m.id,
      ThreadName(Resolution(FetchOf(env), section, command).section, command)) == Some(thread)
    ensures var embeds := EmbedsOfBody(Resolution(FetchOf(env), section, command).body);
      var trace := ManpageTrace(env, m, section, command);
      var n := |Requested(FetchOf(env), section, command)| + 1;
      && |trace| == n + |embeds|
      && forall i | 0 <= i < |embeds| ::
           && trace[n + i] == SendEmbed(thread, embeds[i], env.embedSent(i))
           && |trace[n + i].embed.description| <= MaxDescription
  {
    var resolved := Resolution(FetchOf(env), section, command);
    var name := ThreadName(resolved.section, command);
    var embeds := EmbedsOfBody(resolved.body);
    var gets := Gets(env, Requested(FetchOf(env), section, command), command);
    var posts := Posts(env, thread, embeds);
    var start := StartThread(m.channelId, m.id, name, ArchiveMinutes);
    assert RenderTrace(env, m, name, embeds) == [start] + posts;
    var trace := ManpageTrace(env, m, section, command);
    assert trace == gets + ([start] + posts);
    EmbedsBounded(GoStrings.SplitAfter(resolved.body, ZeroWidthSpace));
    forall i | 0 <= i < |embeds|
      ensures trace[|gets| + 1 + i] == SendEmbed(thread, embeds[i], env.embedSent(i))
      ensures |embeds[i].description| <= MaxDescription
    {
      assert trace[|gets| + 1 + i] == posts[i];
      assert embeds[i] in embeds;
    }
  }

  /**
   * "man! c" with the smallest answering section k: sections 1 to k are
   * requested, and the thread is named "man k c" — after the resolved
   * section, not the "0" the user asked for.
   */
  lemma ProbedThreadName(env: Env, m: Message, command: seq<byte>, k: nat)
    requires 1 <= k <= 9 && Hit(FetchOf(env), command, k)
    requires forall j | 1 <= j < k :: !Hit(FetchOf(env), command, j)
    ensures var trace := ManpageTrace(env, m, AnySection, command);
      && |trace| > k
      && (forall i | 0 <= i < k :: trace[i] == Get(Url(env.server, Digit(i + 1), command)))
      && trace[k] == StartThread(m.channelId, m.id, ThreadName(Digit(k), command), ArchiveMinutes)
  {
    ProbeFindsSmallest(FetchOf(env), command);
  }

  /** In the probe a transport error counts as a miss: getManPage then reports status 0. */
  lemma TransportErrorIsMiss(env: Env, command: seq<byte>, i: nat)
    requires 1 <= i <= 9
    requires env.http(Url(env.server, Digit(i), command)) == None
    ensures !Hit(FetchOf(env), command, i)
  {
  }

  /**
   * "man! c" with no section 1..9 answering 200: all nine are requested and
   * the only reply is "No manpage found for c".
   */
  lemma ProbeFailsReply(env: Env, m: Message, command: seq<byte>)
    requires forall j | 1 <= j <= 9 :: !Hit(FetchOf(env), command, j)
    ensures ManpageTrace(env, m, AnySection, command) ==
      Gets(env, ProbeOrder(9), command) + [SendMessage(m.channelId, NotFoundPrefix + command)]
  {
    ProbeExhausted(FetchOf(env), command);
  }
}
