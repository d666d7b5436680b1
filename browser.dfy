/** What the scraper sees of the browser driver. The driver itself is not
    modelled: each listing page
    is given by what loading it yields, and each download navigation by the
    network events the listener observes and the response bodies the
    browser keeps. */
module Browser {
  import opened Basics

  newtype byte = b: int | 0 <= b < 256

  type Bytes = seq<byte>

  /** `network.RequestID`; its zero value is the empty string. */
  type RequestId = string

  /** A DOM node matched by the card selector: its attributes by name. */
  datatype Node = Node(attributes: map<string, string>)

  /** What happens when the scraper opens listing page n. */
  datatype PageLoad =
    | NavigationFailed(reason: string)  // `chromedp.Navigate` returned an error
    | QueryFailed(reason: string)       // the page opened, `chromedp.Nodes` returned an error
    | Loaded(nodes: seq<Node>)          // the selector's matches, in document order

  /** The events of the download listener's switch; any other event is ignored. */
  datatype NetEvent =
    | RequestWillBeSent(id: RequestId)
    | LoadingFinished(id: RequestId)
    | OtherEvent

  /** One download navigation: `navigation` is the error `Navigate` returned,
      `events` what the listener receives from the start of the navigation
      until `GetResponseBody` reads the current request id. */
  datatype Visit = Visit(navigation: Option<string>, events: seq<NetEvent>)

  /** The download tab: the i-th navigation, to `url`, behaves as `visit(i, url)`;
      `GetResponseBody(id)` succeeds exactly for the ids in `bodies`. */
  datatype Tab = Tab(visit: (nat, string) -> Visit, bodies: map<RequestId, Bytes>)
}
