/**
 * `getManPage` (main.go, lines 81-92): one HTTP GET of the man page server.
 * The network is an oracle from a URL to a response, or to None when the
 * request fails in transport.
 */
module Fetcher {

  import opened Wrappers
  import opened Bytes

  /** What the server sends back: its status code and the whole body. */
  datatype HttpResponse = HttpResponse(status: int, body: seq<byte>)

  /** getManPage's three results; `failed` stands for a non-nil error. */
  datatype FetchResult = FetchResult(status: int, body: seq<byte>, failed: bool)

  /** The address the bot asks for: the configured server, the section, a slash and the command. */
  function Url(server: seq<byte>, section: seq<byte>, command: seq<byte>): seq<byte>
  {
    server + section + [47] + command
  }

  /**
   * A transport error yields status 0, an empty body and the error;
   * otherwise the server's status code and whole body, with no error.
   */
  function GetManPage(server: seq<byte>, http: seq<byte> -> Option<HttpResponse>,
                      section: seq<byte>, command: seq<byte>): (r: FetchResult)
    ensures r.failed <==> http(Url(server, section, command)) == None
    ensures r.failed ==> r.status == 0 && r.body == []
    ensures !r.failed ==> HttpResponse(r.status, r.body) == http(Url(server, section, command)).value
  {
    match http(Url(server, section, command))
    case None => FetchResult(0, [], true)
    case Some(resp) => FetchResult(resp.status, resp.body, false)
  }
}
