/**
  The module-level state of server/index.ts (`lastBlinking`, `lastText`
  and the `webhooks` table) and the handlers that read and update it:
  the poll tick, `POST /text`, `GET /text`, and the three webhook routes.
  HTTP routing and JSON encoding are not modelled: a handler takes the
  already-read request body and returns a `Response` value.
*/
module Server {
  import opened Wrappers
  import opened Dispatch
  import opened Poll
  import opened Webhooks

  /** The device's answer to the `Scroll Text` set request: the fetch threw, or a status came back. */
  datatype DeviceReply = Threw | Answered(status: int)

  /** What a handler sends back. */
  datatype Response =
    | TextSet(text: string)               // {ok: true, text}
    | CurrentText(text: string)           // {text}
    | Registered(id: nat, url: string)    // {ok: true, id, url}
    | Unregistered                        // {ok: true}
    | Listing(webhooks: seq<Row>)         // {webhooks}
    | EmptyText                           // "Body must contain text"
    | DeviceRejected(status: int)         // "Failed to set text", with the device's status
    | InvalidUrl                          // "Body must contain a 'url' string"
    | DuplicateUrl                        // "Webhook URL already registered"
    | UnknownUrl                          // "Webhook URL not found"
    | InternalError                       // an exception escaped the handler

  /** The HTTP status of a response; an escaped exception becomes the framework's 500. */
  function StatusOf(r: Response): (code: int)
    ensures code in {200, 400, 404, 409, 500, 502}
    ensures code == 200 <==> r.TextSet? || r.CurrentText? || r.Registered? || r.Unregistered? || r.Listing?
    ensures code == 400 <==> r == EmptyText || r == InvalidUrl
  {
    match r
    case EmptyText => 400
    case InvalidUrl => 400
    case DeviceRejected(_) => 502
    case DuplicateUrl => 409
    case UnknownUrl => 404
    case InternalError => 500
    case _ => 200
  }

  class Server {
    var lastBlinking: Option<Reading>
    var lastText: string
    const table: WebhookTable

    ghost predicate Valid()
      reads this, table
    {
      table.Valid()
    }

    /** Process start: the table is whatever the database file already holds. */
    constructor (table: WebhookTable)
      requires table.Valid()
      ensures Valid() && this.table == table
      ensures lastBlinking == None && lastText == ""
    {
      this.table := table;
      lastBlinking := None;
      lastText := "";
    }

    /**
      `fireWebhooks`: read the urls, issue one POST per url with the same body,
      then walk the settled results by index and log each rejection against
      its url. `deliver` stands for the network.
    */
    method FireWebhooks(payload: Event, deliver: Request -> Settled)
      returns (sent: seq<Request>, log: seq<Report>)
      ensures sent == DispatchPlan(UrlsOf(table.rows), payload)
      ensures log == Failures(UrlsOf(table.rows), Settle(sent, deliver))
    {
      var urls := UrlsOf(table.rows);
      if |urls| == 0 {
        return [], [];
      }
      sent := DispatchPlan(urls, payload);
      var results := Settle(sent, deliver);
      log := [];
      for i := 0 to |results|
        invariant log == Failures(urls[..i], results[..i])
      {
        if results[i].Rejected? {
          log := log + [Failed(urls[i], results[i].reason)];
        }
        assert urls[..i + 1][..i] == urls[..i] && results[..i + 1][..i] == results[..i];
      }
      assert urls[..|results|] == urls && results[..|results|] == results;
    }

    /**
      `pollBlinking`: one tick. `lastBlinking` moves as `PollStep` says, and
      the `disarmed` event, when fired, goes to every current subscriber.
    */
    method PollBlinking(o: PollOutcome, deliver: Request -> Settled)
      returns (sent: seq<Request>, log: seq<Report>)
      modifies this
      ensures lastText == old(lastText)
      ensures lastBlinking == PollStep(old(lastBlinking), o).next
      ensures PollStep(old(lastBlinking), o).fired == [] ==> sent == [] && log == []
      ensures PollStep(old(lastBlinking), o).fired == [Disarmed] ==>
                && sent == DispatchPlan(UrlsOf(table.rows), Disarmed)
                && log == Failures(UrlsOf(table.rows), Settle(sent, deliver))
    {
      sent, log := [], [];
      match o
      case FetchFailed =>
      case Replied(status, payload) =>
        if IsOk(status) {
          match payload
          case Unparsable =>
          case Parsed(current) =>
            if lastBlinking == Some(Bool(true)) && current == Bool(false) {
              sent, log := FireWebhooks(Disarmed, deliver);
            }
            lastBlinking := Some(current);
        }
    }

    /**
      `POST /text`: an empty body is refused before the device is called; a
      device that answers non-ok gives 502; a fetch that throws escapes the
      handler. Only on success is `lastText` set and `armed` fired.
      `deviceCalls` lists the texts sent to the device.
    */
    method PostText(text: string, device: DeviceReply, deliver: Request -> Settled)
      returns (resp: Response, deviceCalls: seq<string>, sent: seq<Request>, log: seq<Report>)
      modifies this
      ensures lastBlinking == old(lastBlinking)
      ensures deviceCalls == if text == "" then [] else [text]
      ensures StatusOf(resp) == 400 <==> text == ""
      ensures StatusOf(resp) == 502 <==> text != "" && device.Answered? && !IsOk(device.status)
      ensures StatusOf(resp) == 500 <==> text != "" && device.Threw?
      ensures resp.TextSet? <==> text != "" && device.Answered? && IsOk(device.status)
      ensures resp.TextSet? ==>
                && resp.text == text && lastText == text
                && sent == DispatchPlan(UrlsOf(table.rows), Armed(text))
                && log == Failures(UrlsOf(table.rows), Settle(sent, deliver))
      ensures !resp.TextSet? ==> lastText == old(lastText) && sent == [] && log == []
      ensures text == "" ==> resp == EmptyText
      ensures text != "" && device.Answered? && !IsOk(device.status) ==> resp == DeviceRejected(device.status)
    {
      deviceCalls, sent, log := [], [], [];
      if text == "" {
        return EmptyText, deviceCalls, sent, log;
      }
      deviceCalls := [text];
      match device
      case Threw =>
        resp := InternalError;
      case Answered(status) =>
        if !IsOk(status) {
          resp := DeviceRejected(status);
        } else {
          lastText := text;
          sent, log := FireWebhooks(Armed(text), deliver);
          resp := TextSet(text);
        }
    }

    /** `GET /text`: the last text set, `""` before any. */
    method GetText() returns (resp: Response)
      ensures resp == CurrentText(lastText)
    {
      resp := CurrentText(lastText);
    }

    /** `GET /webhooks`: every subscription, ids increasing. */
    method ListWebhooks() returns (resp: Response)
      requires Valid()
      ensures resp.Listing? && resp.webhooks == table.rows
      ensures IncreasingIds(resp.webhooks)
    {
      var rows := table.List();
      resp := Listing(rows);
    }

    /**
      `POST /webhooks`: a malformed body escapes (500); a missing, empty or
      non-string url is 400; a registered url is 409; otherwise one row is
      added and its fresh id returned. Only that last case touches the table.
    */
    method RegisterWebhook(body: Body) returns (resp: Response)
      requires Valid()
      modifies table
      ensures Valid()
      ensures body.Malformed? ==> resp == InternalError
      ensures body.Json? && ValidateUrl(body.url).None? ==> resp == InvalidUrl
      ensures !resp.Registered? ==> table.rows == old(table.rows) && table.lastId == old(table.lastId)
      ensures body.Json? && ValidateUrl(body.url).Some? ==>
                var url := body.url.s;
                && (url in UrlsOf(old(table.rows)) ==> resp == DuplicateUrl)
                && (url !in UrlsOf(old(table.rows)) ==>
                      && resp == Registered(old(table.lastId) + 1, url)
                      && table.rows == old(table.rows) + [Row(resp.id, url)])
      ensures resp.Registered? ==> forall n :: n in old(table.issued) ==> n < resp.id
      ensures resp.Registered? ==> table.lastId == resp.id && table.issued == old(table.issued) + {resp.id}
      ensures !resp.Registered? ==> table.issued == old(table.issued)
    {
      if body.Malformed? {
        return InternalError;
      }
      var checked := ValidateUrl(body.url);
      if checked.None? {
        return InvalidUrl;
      }
      var url := checked.value;
      var r := table.Insert(url);
      match r
      case Conflict => resp := DuplicateUrl;
      case Inserted(id) => resp := Registered(id, url);
    }

    /**
      `DELETE /webhooks`: a malformed body escapes (500); a missing, empty or
      non-string url is 400; a url no row has is 404 with the table unchanged;
      otherwise exactly the row with that url is removed.
    */
    method DeleteWebhook(body: Body) returns (resp: Response)
      requires Valid()
      modifies table
      ensures Valid()
      ensures body.Malformed? ==> resp == InternalError
      ensures body.Json? && ValidateUrl(body.url).None? ==> resp == InvalidUrl
      ensures !resp.Unregistered? ==> table.rows == old(table.rows)
      ensures table.lastId == old(table.lastId) && table.issued == old(table.issued)
      ensures body.Json? && ValidateUrl(body.url).Some? ==>
                var url := body.url.s;
                && (url !in UrlsOf(old(table.rows)) ==> resp == UnknownUrl)
                && (url in UrlsOf(old(table.rows)) ==> resp == Unregistered)
                && forall k :: 0 <= k < |old(table.rows)| && old(table.rows)[k].url == url ==>
                     table.rows == old(table.rows)[..k] + old(table.rows)[k + 1..]
      ensures body.Json? && ValidateUrl(body.url).Some? ==> body.url.s !in UrlsOf(table.rows)
    {
      if body.Malformed? {
        return InternalError;
      }
      var checked := ValidateUrl(body.url);
      if checked.None? {
        return InvalidUrl;
      }
      var changes := table.Delete(checked.value);
      if changes == 0 {
        resp := UnknownUrl;
      } else {
        resp := Unregistered;
      }
    }
  }

  /** Registering the same url twice: the second call is a 409 and the url is in exactly one row. */
  method RegisterTwice(s: Server, url: string) returns (first: Response, second: Response)
    requires s.Valid() && url != ""
    modifies s.table
    ensures s.Valid()
    ensures StatusOf(second) == 409
    ensures url in UrlsOf(s.table.rows)
    ensures forall i, j :: 0 <= i < j < |s.table.rows| ==> s.table.rows[i].url != s.table.rows[j].url
  {
    first := s.RegisterWebhook(Json(Str(url)));
    assert url in UrlsOf(s.table.rows) by {
      assert UrlsOf(s.table.rows)[|s.table.rows| - 1] == url || url in UrlsOf(old(s.table.rows));
    }
    second := s.RegisterWebhook(Json(Str(url)));
  }

  /** Register, delete, register again: the url comes back under a new, larger id. */
  method ReregisterAfterDelete(s: Server, url: string) returns (first: Response, second: Response)
    requires s.Valid() && url != "" && url !in UrlsOf(s.table.rows)
    modifies s.table
    ensures s.Valid()
    ensures first.Registered? && second.Registered? && first.id < second.id
  {
    first := s.RegisterWebhook(Json(Str(url)));
    assert UrlsOf(s.table.rows)[|s.table.rows| - 1] == url;
    var removed := s.DeleteWebhook(Json(Str(url)));
    second := s.RegisterWebhook(Json(Str(url)));
  }

  /** A successful `POST /text` followed by `GET /text` returns the text just set. */
  method SetThenGetText(s: Server, text: string, deliver: Request -> Settled) returns (resp: Response)
    requires text != ""
    modifies s
    ensures resp == CurrentText(text)
  {
    var posted, calls, sent, log := s.PostText(text, Answered(200), deliver);
    resp := s.GetText();
  }
}
