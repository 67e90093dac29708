/**
 * Command parsing in `messageCreate` (main.go, lines 62-79): a message is
 * acted on only when it is not the bot's own, its first space-separated
 * word is "man!" and it has two or three words.
 */
module Dispatcher {

  import opened Bytes
  import opened GoStrings

  /** What the handler does with a message: nothing, or look up a page. */
  datatype Dispatch = Ignored | Lookup(section: seq<byte>, command: seq<byte>)

  /** The decision of messageCreate for a message with text `content`. */
  function ParseCommand(fromSelf: bool, content: seq<byte>): Dispatch
  {
    if fromSelf then Ignored
    else
      var words := Split(content, Space);
      if words[0] != Trigger then Ignored
      else if |words| == 2 then Lookup(AnySection, words[1])
      else if |words| == 3 then Lookup(words[1], words[2])
      else Ignored
  }

  /**
   * The two shapes that trigger a lookup, stated on the text itself:
   * "man! c" asks for section "0" and "man! s c" for section s, where
   * s and c hold no space. Every other text, and every message of the bot
   * itself, is ignored.
   */
  lemma {:induction false} ParseCommandShapes(fromSelf: bool, content: seq<byte>, section: seq<byte>, command: seq<byte>)
    ensures ParseCommand(fromSelf, content) == Lookup(section, command) <==>
      && !fromSelf
      && Space !in command
      && (|| (section == AnySection && content == Trigger + [Space] + command)
          || (Space !in section && content == Trigger + [Space] + section + [Space] + command))
  {
    var two := [Trigger, command];
    var three := [Trigger, section, command];
    assert Trigger + [Space] + command == Join(two, Space) by {
      assert two[1..] == [command];
    }
    assert Trigger + [Space] + section + [Space] + command == Join(three, Space) by {
      assert three[1..] == [section, command];
      assert three[1..][1..] == [command];
      assert Join(three[1..], Space) == section + [Space] + command;
    }
    if !fromSelf && Space !in command {
      if section == AnySection && content == Trigger + [Space] + command {
        SplitJoin(two, Space);
      }
      if Space !in section && content == Trigger + [Space] + section + [Space] + command {
        SplitJoin(three, Space);
      }
    }
    if ParseCommand(fromSelf, content) == Lookup(section, command) {
      var words := Split(content, Space);
      JoinSplit(content, Space);
      if |words| == 2 {
        assert words == two;
      } else {
        assert words == three;
      }
    }
  }

  /** A message whose first word is not "man!", or that has neither two nor three words, starts nothing. */
  lemma IgnoredShapes(fromSelf: bool, content: seq<byte>)
    ensures ParseCommand(fromSelf, content) == Ignored <==>
      || fromSelf
      || Split(content, Space)[0] != Trigger
      || |Split(content, Space)| !in {2, 3}
  {
  }
}
