# Boo Display bridge server — a Dafny model

The server in `server/index.ts` bridges one ESPHome display device to a set
of webhook subscribers. Every few seconds it polls the device's `Blinking`
binary sensor. When the alarm goes from blinking to not blinking it POSTs
`{event: "disarmed"}` to every registered url. `POST /text` sends a scroll
text to the device and, on success, remembers it and POSTs
`{event: "armed", text}`. Subscriptions live in a SQLite table `webhooks`
with AUTOINCREMENT ids and a UNIQUE url.

The model has five modules:

- `Wrappers` (wrappers.dfy): `Option`. `None` plays the part of JavaScript's `null`.
- `Dispatch` (dispatch.dfy): event payloads and the fan-out plan of
  `fireWebhooks`, with the per-url failure log.
- `Poll` (poll.dfy): the poll tick as a pure transition on `lastBlinking`,
  runs of ticks, and the edge-trigger properties of those runs.
- `Webhooks` (webhooks.dfy): url validation and the `webhooks` table as a
  class holding a sequence of rows kept in id order, a counter standing for
  SQLite's AUTOINCREMENT sequence, and a ghost set of every id ever issued.
- `Server` (server.dfy): a class holding the module-level state
  (`lastBlinking`, `lastText`, the table) and the route handlers as methods.

Inputs from outside the program are parameters:

- A poll outcome is `FetchFailed` or `Replied(status, payload)`.
- The device's answer to a text-set request is a `DeviceReply`.
- A webhook delivery's fate is `deliver: Request -> Settled`.
- A request body is passed in already read.

`data.value as boolean` is a cast and checks nothing. So a decoded value is
`Bool(b)` or `NotBool`, and a `NotBool` value is stored in `lastBlinking`
just as the code stores it. A reply whose `res.json()` or `data.value`
throws is `Unparsable`. The `catch` swallows it, so the state stays as it was.

Behaviour of server/index.ts worth knowing when reading the model:

- `GET /text` returns the in-memory `lastText`. It is `""` before any
  successful `POST /text`, and the route never fails.
- In `POST /text` a device fetch that throws is not caught. It escapes to
  the framework as a 500 (`InternalError`). Only a non-ok device status
  gives 502.
- `!url || typeof url !== "string"` also rejects the empty string. An empty
  url is a 400, like a missing or non-string one.
- A request body that is not JSON makes `c.req.json()` throw. That
  exception is not caught either, so it is also modelled as `InternalError`.

## Model

| member | source | states |
|---|---|---|
| Dispatch.DispatchPlan | server/index.ts:37-47 | one POST per url, in list order, every one carrying the same payload; no url gives no request |
| Dispatch.Settle | server/index.ts:40-48 | one settled outcome per request, in request order, each the outcome of its own request |
| Dispatch.Failures | server/index.ts:48-54 | the failure log has at most one line per settled result; `FailuresFromFront` and `FailuresCount` pin its order and length |
| Dispatch.FailuresAppend | server/index.ts:49-54 | the log of two consecutive batches of results is the first batch's log followed by the second's |
| Dispatch.FailuresFromFront | server/index.ts:49-54 | walking by index: result 0 is logged first, if it was rejected, and then the rest in order, so each rejection is logged once and in index order |
| Dispatch.FailuresCount | server/index.ts:49-54 | the log has exactly as many lines as there are rejected results |
| Dispatch.FailuresSound | server/index.ts:49-53 | every logged failure names the url and the reason of a rejected result at the same index |
| Dispatch.FailuresComplete | server/index.ts:49-53 | every rejected result at index i is logged against urls[i] with its reason |
| Dispatch.NoRejectionNoLog | server/index.ts:49-53 | when every delivery is fulfilled nothing is logged |
| Poll.IsOk | server/index.ts:68 | `res.ok`: the status is in the 2xx range |
| Poll.Decoded | server/index.ts:66-70 | a poll yields a value exactly when the response is ok (status 200-299) and its body decodes, and that value is the body's `value` |
| Poll.PollStep | server/index.ts:65-79 | `disarmed` fires iff the previous value is `true` and the decoded value is `false`, and no other event ever fires; a decoded value becomes the new state; a thrown fetch, a non-ok status or an undecodable body leaves the state unchanged |
| Poll.Run | server/index.ts:60-79 | a run of ticks fires at most one event per tick, and every one of them is `disarmed` |
| Poll.RunRemembersLatest | server/index.ts:68-75 | after a run the state is the value of the latest tick that decoded one, or the initial state if none did |
| Poll.StateHasSource | server/index.ts:60-75 | from the initial `null`, a known state was set by the latest decoding tick |
| Poll.FiredAt | server/index.ts:72-74 | tick i of a run from `null` fires nothing or exactly `disarmed` |
| Poll.DisarmedAtTick | server/index.ts:60-75 | from `null`, tick i fires `disarmed` iff it decodes `false` and some earlier tick decoded `true` with no decoding tick in between |
| Poll.FirstDecodingNeverDisarms | server/index.ts:60-74 | from `null`, no tick up to and including the first decoding tick fires anything, whatever it decodes |
| Poll.DisarmsAreSeparatedByTrue | server/index.ts:72-75 | between two `disarmed` events some tick decoded `true`: an edge is never re-fired |
| Poll.RunFiresTickEvents | server/index.ts:72-74 | a run's events are its ticks' events in order; a run fires nothing iff no tick does |
| Poll.ExampleTrace | server/index.ts:65-79 | failed fetch, then true, true, false: a single `disarmed`, on the last tick, ending in state `false` |
| Webhooks.ValidateUrl | server/index.ts:133-136 | a body url is accepted iff it is a non-empty string, and then it is that string |
| Webhooks.UrlsOf | server/index.ts:29-31 | the subscriber urls, one per row, in table order |
| Webhooks.Without | server/index.ts:156 | deleting by url keeps no row with that url and never grows the table |
| Webhooks.WithoutAbsent | server/index.ts:156-158 | deleting a url no row has leaves every row as it was |
| Webhooks.WithoutRemovesOneRow | server/index.ts:156 | with unique urls, deleting a present url removes exactly its row and keeps every other row in place |
| Webhooks.RemoveAtKeepsOrder | server/index.ts:20-24 | removing one row keeps ids increasing and urls unique |
| Webhooks.WebhookTable.constructor | server/index.ts:19-25 | a new table is empty and has issued no id |
| Webhooks.WebhookTable.Insert | server/index.ts:139-143 | a duplicate url is a conflict and changes nothing; a new url appends exactly one row whose id is one past the last issued and above every id ever issued, deleted ones included |
| Webhooks.WebhookTable.Delete | server/index.ts:156-158 | an absent url changes 0 rows and nothing else; a present url changes 1 row, exactly that row is gone and the others stay in order; afterwards no row has the url |
| Webhooks.WebhookTable.List | server/index.ts:127 | every row, with ids strictly increasing |
| Server.StatusOf | server/index.ts:86-162 | each response has status 200, 400, 404, 409, 500 or 502; 200 exactly for the success replies; 400 exactly for an empty text or an invalid url |
| Server.Server.constructor | server/index.ts:60-61 | `lastBlinking` starts `null` and `lastText` starts empty |
| Server.Server.FireWebhooks | server/index.ts:33-56 | the requests sent are the dispatch plan for the current urls, and the log is the failure log of their settled outcomes |
| Server.Server.PollBlinking | server/index.ts:65-79 | `lastBlinking` moves as the poll step says; `lastText` is untouched; a `disarmed` tick sends the plan to every subscriber, and any other tick sends nothing |
| Server.Server.PostText | server/index.ts:86-106 | 400 exactly for an empty body, with no device call and no webhook; 502 exactly for a non-ok device status; 500 when the fetch throws; in every failure `lastText` is unchanged and nothing is sent; on success `lastText` is the text and `armed` with that text goes to every subscriber |
| Server.Server.GetText | server/index.ts:108-110 | returns the current `lastText` |
| Server.Server.ListWebhooks | server/index.ts:126-129 | lists the table's rows, ids increasing |
| Server.Server.RegisterWebhook | server/index.ts:131-147 | 500 for a non-JSON body; 400 for a missing, empty or non-string url; 409 for a registered url; otherwise one row is added with id one past the last issued, which is returned, and the counter and issued ids advance by exactly that id; every other case leaves rows, counter and issued ids unchanged |
| Server.Server.DeleteWebhook | server/index.ts:149-162 | 500 for a non-JSON body; 400 for a missing, empty or non-string url; 404 with the table unchanged for an unknown url; otherwise exactly that url's row is removed; after a valid url no row has it; the id counter and the set of issued ids never change |
| Server.RegisterTwice | server/index.ts:139-144 | registering one url twice: the second answer is 409 and the url is in the table exactly once |
| Server.ReregisterAfterDelete | server/index.ts:139-161 | registering, deleting and registering a url again gives the second row a larger id: a deleted id is not reused |
| Server.SetThenGetText | server/index.ts:102-110 | after a successful `POST /text`, `GET /text` returns that text |

## Left out

- `GET /alarm` (server/index.ts:112-122) passes the device reading through and has no logic of its own.
- `fetch`, Hono routing, JSON encoding of bodies and responses, and `encodeURIComponent` are foreign library calls. Device and subscriber answers are inputs, and a request body is its parsed shape.
- `setInterval`, the first `pollBlinking()` call and the concurrency of `Promise.allSettled` are timer and async plumbing. Each tick and each dispatch is one sequential step. Overlapping ticks are not modelled.
- The SQLite engine is not modelled: the WAL pragma, `mkdirSync`, the `created_at` timestamps, and how the UNIQUE violation is detected by matching the error message. A duplicate url is a structural `Conflict` result.
- Insert failures other than UNIQUE, which the handler rethrows (server/index.ts:145), are not modelled. The modelled table has no other failure.
- `getWebhookUrls` has no ORDER BY, so SQL promises no order. SQLite may well answer `SELECT url` from the UNIQUE index on `url`, which gives url order. The model fixes id order (the table's stored order) for `UrlsOf`, and so for the order of the requests `FireWebhooks` sends. That is a modelling choice, not a promise of the code.
- The outcome of a webhook delivery is a function of the request. Two identical requests in one dispatch cannot occur, because urls are unique.
- Environment parsing (`parseInt`, default host, port, paths) and console logging are left out. A log line is kept only as the `Report` values of failed deliveries.
