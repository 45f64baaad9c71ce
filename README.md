# MusicBrainz bot editing core, in Dafny

A model of the edit-encoding and response-reading logic of the MusicBrainz
bot's `MusicBrainzClient` (`musicbrainz_bot/editing.py`). The bot has no write
API to call. It fills in the MusicBrainz web forms and posts to the
relationship editor's JSON endpoint, and the model covers that work:

- **Payload flattening** (`Payload`). `create_payload` turns a field template
  into the flat `prefix.field`, `prefix.field.i` and `prefix.field.i.sub` keys
  of a form, and raises for a required field that is None.
  - The method `CreatePayload` builds the dict in place, as the source does.
  - `Flatten` is the function that specifies it.
  - The source compares the prefixed key with `required_fields`, and
    `add_area` and `edit_area` pass the unprefixed `["name"]`. The model keeps
    this behaviour as written, so an area's name is never actually enforced
    (`AreaNameNeverRequired`).
- **Release forms** (`Album`):
  - `format_time` renders a track length as `M:SS`.
  - `album_to_form` builds the release-add form: artist credit, title, date
    parts, label, barcode, the `mediums.%d.*` and `mediums.%d.track.%d.*`
    fields, and the CD Baby edit note.
- **Quotas** (`Quota`, and the quota part of `Client`):
  - The count phrase `Found (at least) N edits` is found on the
    edit-search page.
  - Its separators are dropped and `max(0, cap - N)` is returned.
  - `edits_left` is the smaller of the daily and the global budget.
- **Relationship web service** (`Relationship`, `Client.RelAction`):
  - the id guard;
  - the `rel-editor.rels.0.*` payload, with its two endpoints sorted by type;
  - the tri-state reading of the JSON reply (applied, "no changes", or an
    error).
- **Result pages and URLs** (`Client`):
  - `_check_response` says "applied" when the page thanks the editor,
    "nothing to do" when it carries the already-done message, and raises
    otherwise.
  - `_extract_mbid` reads the MBID at the end of the page URL.
- **Field-guarded form edits** (`Client`): `_update_entity_if_not_set`,
  `_update_artist_date_if_not_set`, `set_artist_type`, `edit_url` and
  `_edit_release_information`. Each reads the live form field first. It leaves
  a field that is already set, gives up when the live value is not the
  expected old one, and otherwise writes and submits.

**How the browser is modelled.** The `mechanize` browser is the class
`Browser.Browser`:

- its fields are the current response, the selected form and a log of every
  request sent;
- the server is a fixed function from request to response;
- each browser step is a function on the state value `Session`.

`MusicBrainzClient` holds such a browser. Each client method is proved to
compute exactly the function of the same operation on `Session`. The
promises of the guards are then lemmas about those functions: what is read,
what is written, and which requests go out. The request log is how "nothing
was submitted" is stated.

Python exceptions are the `Raised` case of `Outcome`. A guard's bare
`return` is `Ok(None)`, as in the source.

## Model

| member | source | states |
|---|---|---|
| Album.FormatTimeRoundTrip | musicbrainz_bot/editing.py:11-12 | a non-negative length renders as minutes, ':' and two digits below 60, and reading the result back gives the length (M*60 + SS == secs) |
| Album.FormatTimeInjective | musicbrainz_bot/editing.py:11-12 | distinct non-negative lengths render differently |
| Album.FormatTimeNegative | musicbrainz_bot/editing.py:11-12 | Python's flooring `//` and `%` render -1 as "-1:59" |
| Album.TwoDigitsValue | musicbrainz_bot/editing.py:12 | the `%02d` field reads back as the seconds it renders |
| Payload.CreatePayload | musicbrainz_bot/editing.py:60-95 | the in-place loop over the template returns what `Flatten` specifies: the payload, or the exception of the first required None |
| Payload.PutList | musicbrainz_bot/editing.py:74-90 | the `enumerate` loop writes, in order, each str element at `field.i` and each dict entry at `field.i.sub` |
| Payload.PutDict | musicbrainz_bot/editing.py:85-90 | the loop over a dict element writes each entry at `field.i.sub` |
| Payload.FlattenRaisesIff | musicbrainz_bot/editing.py:65-67 | it raises exactly when some None entry's prefixed key is required, and the error names the first such key |
| Payload.AreaNameNeverRequired | musicbrainz_bot/editing.py:304-305 | with prefix "edit-area" and required fields ["name"], flattening never raises, whatever the template holds |
| Payload.NoneOptionalIgnored | musicbrainz_bot/editing.py:65-69 | a None entry that is not required can be removed from the template without changing the result |
| Payload.FlattenContent | musicbrainz_bot/editing.py:60-95 | the payload is the left-to-right dict update by every assignment the template asks for |
| Payload.FlattenKeys | musicbrainz_bot/editing.py:62-93 | a key is in the payload exactly when some assignment writes it, and every key starts with `prefix + "."` |
| Payload.PayloadHolds | musicbrainz_bot/editing.py:60-95 | when the assignments write distinct keys, each of them is found in the payload |
| Payload.ScalarCopied | musicbrainz_bot/editing.py:92-93 | a non-None scalar is copied unchanged to `prefix.field` |
| Payload.ListStrExpanded | musicbrainz_bot/editing.py:76-79 | the i-th str element of a list appears at `prefix.field.i` |
| Payload.ListDictExpanded | musicbrainz_bot/editing.py:82-90 | each entry `sub: v` of the i-th dict element appears at `prefix.field.i.sub` with value v |
| Payload.ExampleOptionalNone | musicbrainz_bot/editing.py:65-69 | an optional None is dropped: {"name": "X", "url": None} under "p" gives {"p.name": "X"} |
| Payload.ExampleRequiredNone | musicbrainz_bot/editing.py:65-67 | a required None raises MissingRequiredField("p.name") |
| Payload.ExampleStrList | musicbrainz_bot/editing.py:76-79 | a list of strs is indexed from 0 in order |
| Payload.ExampleDictList | musicbrainz_bot/editing.py:82-90 | a list of dicts gives one `field.i.sub` key per entry |
| Album.AlbumToForm | musicbrainz_bot/editing.py:98-129 | the in-place medium and track loops return what `AlbumForm` specifies |
| Album.AlbumFormRaises | musicbrainz_bot/editing.py:105-128 | AttributeError exactly for a truthy date that is not a str; IndexError exactly for an `_id` without ':'; otherwise a form |
| Album.AlbumFormKeys | musicbrainz_bot/editing.py:98-129 | every key of the form is a header field or a `mediums.` field, and every `mediums.` field is the format or position of one of the album's media or the position, name or length of one of that medium's tracks, with the medium and track returned |
| Album.AlbumFormTrack | musicbrainz_bot/editing.py:120-127 | each track of each medium has its position, its title under `name`, and its length rendered by format_time |
| Album.AlbumFormMedium | musicbrainz_bot/editing.py:117-119 | each medium has its format and position |
| Album.AlbumFormHeader | musicbrainz_bot/editing.py:99-128 | artist credit and title always; artist MBID, label and barcode exactly when truthy; and the CD Baby edit note from the part of `_id` after ':' |
| Album.AlbumFormDate | musicbrainz_bot/editing.py:105-112 | year when the date is truthy; month and day exactly when there are a second and a third `-` part |
| Album.AlbumFormFullDate | musicbrainz_bot/editing.py:105-112 | a `YYYY-MM-DD` date comes back as exactly its year, month and day |
| Album.AlbumFormEditNoteExample | musicbrainz_bot/editing.py:128 | "cdbaby:someband" gives the note "http://www.cdbaby.com/cd/someband" |
| Album.TrackKeyInjective | musicbrainz_bot/editing.py:121-127 | track keys never collide: medium, track and field can all be read back |
| Quota.MatchAtIff | musicbrainz_bot/editing.py:205 | the matcher captures at a position exactly the counts of a phrase "Found [at least ]N edits" there |
| Quota.FindFromLeftmost | musicbrainz_bot/editing.py:205 | the search returns the leftmost count phrase, and nothing exactly when there is none |
| Quota.CountValueGroup | musicbrainz_bot/editing.py:209 | dropping the separator reads "1,200" as 1200 |
| Quota.RemainingBounds | musicbrainz_bot/editing.py:206-209 | the quota lies in [0, cap], is 0 when no phrase is found, and is max(0, cap - n) for the first count found |
| Quota.RemainingExamplePlain | musicbrainz_bot/editing.py:209 | "Found 400 edits" against 1000 leaves 600 |
| Quota.RemainingExampleGrouped | musicbrainz_bot/editing.py:209 | "Found at least 1,200 edits" against 1000 leaves 0 |
| Client.QuotaQueryBounds | musicbrainz_bot/editing.py:184-235 | no editor id: 0 and nothing sent; otherwise exactly the one search is sent, and the result lies in [0, cap] and is read from its page |
| Client.EditsLeftBounds | musicbrainz_bot/editing.py:237-240 | edits_left is 0 without an editor id, at most the daily cap, and the smaller of the two budgets |
| Client.MusicBrainzClient.EditsLeftToday | musicbrainz_bot/editing.py:184-209 | the method performs the daily quota query on the browser |
| Client.MusicBrainzClient.EditsLeftGlobally | musicbrainz_bot/editing.py:212-235 | the method performs the global quota query on the browser |
| Client.MusicBrainzClient.EditsLeft | musicbrainz_bot/editing.py:237-240 | the method runs both queries in order and returns their minimum |
| Client.MbidOfSound | musicbrainz_bot/editing.py:243 | what is captured is a 36-character MBID right after `/<type>/` at the end of the URL, or before a final newline |
| Client.MbidOfComplete | musicbrainz_bot/editing.py:243 | the MBID of any `.../<type>/<mbid>` URL is extracted, with or without a final newline |
| Client.MusicBrainzClient.ExtractMbid | musicbrainz_bot/editing.py:242-246 | returns the MBID of the current URL, or raises "unable to post edit" |
| Client.CheckPage | musicbrainz_bot/editing.py:348-357 | true iff the page has "Thank you, your "; false iff it has not but has a non-empty done message; otherwise raises "unable to post edit" |
| Client.MusicBrainzClient.CheckResponse | musicbrainz_bot/editing.py:348-357 | reads the current page as `CheckPage` does |
| Relationship.SortByType | musicbrainz_bot/editing.py:397 | the sorted pair is the two endpoints, in an order whose type tags do not decrease; the sort is stable, so endpoints already in order (equal tags included) keep the argument order |
| Relationship.SameTypeKeepsOrder | musicbrainz_bot/editing.py:397 | two endpoints of the same type stay in argument order |
| Relationship.FixedFields | musicbrainz_bot/editing.py:389-394 | action, link type, edit note and votability are always sent; votable is 0 exactly for an auto-edit |
| Relationship.IdOnlyWhenTruthy | musicbrainz_bot/editing.py:395-396 | the id is sent exactly when it is truthy, and as given |
| Relationship.EndedOnlyWhenTrue | musicbrainz_bot/editing.py:414-415 | `period.ended` is sent, as "true", exactly when `ended is True` |
| Relationship.AttributesSent | musicbrainz_bot/editing.py:403-405 | each attribute k is sent as `attrs.k` = str(v), and there is no other `attrs.` key |
| Relationship.BeginDateSent | musicbrainz_bot/editing.py:406-409 | each begin-date part is sent as `period.begin_date.k` = str(v) |
| Relationship.EndDateSent | musicbrainz_bot/editing.py:410-413 | each end-date part is sent as `period.end_date.k` = str(v) |
| Relationship.FirstEntitySent | musicbrainz_bot/editing.py:397-402 | the endpoint whose type sorts first is sent as `entity.0`, every entry unchanged |
| Relationship.SecondEntitySent | musicbrainz_bot/editing.py:397-402 | the other endpoint is sent as `entity.1` |
| Relationship.EntitiesOrdered | musicbrainz_bot/editing.py:397-402 | both types are sent, `entity.0.type` does not sort after `entity.1.type`, and the two are the endpoints given |
| Relationship.KeptOrderSent | musicbrainz_bot/editing.py:397-402 | when the second endpoint's type does not sort before the first's, the first argument is sent as `entity.0` and the second as `entity.1`, every entry unchanged |
| Relationship.EndpointOrderIrrelevant | musicbrainz_bot/editing.py:397 | for endpoints of different types, swapping the arguments gives the same payload |
| Relationship.ReplyNoChangesIff | musicbrainz_bot/editing.py:427-435 | "no changes" iff the reply is an object with a non-empty `edits`, no `error`, and first edit message "no changes" |
| Relationship.ReplyApplied | musicbrainz_bot/editing.py:430-435 | a well-formed reply reads as applied unless its first message is "no changes" |
| Relationship.ReplyOkNeedsEdits | musicbrainz_bot/editing.py:427-428 | any result needs `edits` and no `error`; an object without `edits`, or with `error`, raises "unable to post edit" |
| Relationship.ReplyMalformed | musicbrainz_bot/editing.py:423-426 | a body that is not JSON raises the parse error |
| Client.RelActionSends | musicbrainz_bot/editing.py:384-426 | edit or remove without an id raises before anything is sent; otherwise exactly the payload is posted, once; a result needs a 2xx or 400 status and is the reading of the reply |
| Client.RelActionResult | musicbrainz_bot/editing.py:427-435 | a result comes only from an object reply with `edits` and no `error`, and it is false exactly for "no changes" |
| Client.MusicBrainzClient.RelationshipAction | musicbrainz_bot/editing.py:370-435 | the method performs `RelAction` on the browser |
| Client.UrlEditSent | musicbrainz_bot/editing.py:437-446 | add_url never trips the id guard and sends action "add", with no id and no `ended` |
| Client.MusicBrainzClient.AddUrl | musicbrainz_bot/editing.py:437-446 | the method performs the relationship action for a new URL link |
| Client.AutoEditorKeeps | musicbrainz_bot/editing.py:342-346 | the auto-edit step changes at most the "make votable" box, and sends nothing |
| Client.MusicBrainzClient.AsAutoEditor | musicbrainz_bot/editing.py:342-346 | the method sets the box, and a missing box is ignored |
| Client.NoteAndSubmitSends | musicbrainz_bot/editing.py:359-368 | the form is sent once, with the note and every other control but the box as before; the result is the reading of the reply page |
| Client.MusicBrainzClient.SubmitEdit | musicbrainz_bot/editing.py:359-368 | the method writes the note, sets the box, submits and reads the result |
| Client.UpdateEntityGuard | musicbrainz_bot/editing.py:458-467 | an item not asked for changes nothing and gives true; false iff the live field is not empty, and then nothing changes; true after a write means the field was empty and now holds the entity's value; nothing is sent |
| Client.MusicBrainzClient.UpdateEntityIfNotSet | musicbrainz_bot/editing.py:448-467 | the method performs `UpdateEntity` on the form |
| Client.UpdateDateGuard | musicbrainz_bot/editing.py:470-483 | a year already set gives false and changes nothing; a filled date has the artist's year, the artist's month when that is truthy, and the artist's day when month and day are both truthy; a field not written keeps its value; nothing is sent |
| Client.DateFilled | musicbrainz_bot/editing.py:478-482 | after each of the year, month and day writes, the fields written so far hold the artist's values and the date fields not yet written are as before |
| Client.UpdateDateFrame | musicbrainz_bot/editing.py:469-483 | the date guard changes no control outside the three fields of that date, and keeps the form's action and method |
| Client.MusicBrainzClient.UpdateArtistDateIfNotSet | musicbrainz_bot/editing.py:469-483 | the method performs `UpdateDate` on the form |
| Client.OpenEditFormSends | musicbrainz_bot/editing.py:542-543 | opening an edit page sends that one request and selects its edit form |
| Client.MusicBrainzClient.OpenEdit | musicbrainz_bot/editing.py:542-543 | the method opens the page and selects the form |
| Client.SetTypeGuard | musicbrainz_bot/editing.py:544-546 | the early return happens iff a type is already chosen, and changes nothing |
| Client.SetTypeSubmits | musicbrainz_bot/editing.py:544-550 | a submitted type edit started from an empty type and sends the form once, with the new type and the note |
| Client.SetArtistTypeSends | musicbrainz_bot/editing.py:541-550 | set_artist_type sends the page fetch and, past the guard, exactly one submission |
| Client.MusicBrainzClient.SetArtistType | musicbrainz_bot/editing.py:541-550 | the method performs `SetArtistTypeOf` |
| Client.EditUrlGuard | musicbrainz_bot/editing.py:555-561 | the early return happens iff the live URL is not `old_url` or already is `new_url`, and changes nothing |
| Client.EditUrlSubmits | musicbrainz_bot/editing.py:555-564 | a submitted URL edit started from `old_url`, which differs from `new_url`, and sends the form once with `new_url` and the note |
| Client.EditUrlSends | musicbrainz_bot/editing.py:552-564 | edit_url sends the page fetch and, past the guard, exactly one submission |
| Client.MusicBrainzClient.EditUrl | musicbrainz_bot/editing.py:552-564 | the method performs `EditUrlOf` |
| Client.ScanSendsNothing | musicbrainz_bot/editing.py:659-666 | the attribute loop reads and writes the form only |
| Client.ScanThrough | musicbrainz_bot/editing.py:659-666 | a loop run to the end found every control and every expected value, wrote every new value, and `changed` holds iff some live value differed |
| Client.ScanStops | musicbrainz_bot/editing.py:662-664 | once the loop has given up, the rest of the attributes is not looked at |
| Client.ConfirmSends | musicbrainz_bot/editing.py:670-682 | confirming sends the form with the barcode confirmed through "step_editnote", then the note form through "save", and succeeds only on a page with "Release information" |
| Client.ReleaseInfoFalse | musicbrainz_bot/editing.py:655-669 | a false result sends only the page fetch |
| Client.ReleaseInfoFalseIff | musicbrainz_bot/editing.py:655-669 | once the page is loaded, the result is false exactly when the scan gave up or found nothing to change; a page that cannot be loaded raises |
| Client.ConfirmNeverFalse | musicbrainz_bot/editing.py:670-682 | the confirmation steps either save or raise, never return false |
| Client.ScanAbortsAt | musicbrainz_bot/editing.py:659-664 | a scan that gives up stops at an attribute whose expected value the loaded form no longer holds, every earlier attribute having held its own, and keeps the writes made before it |
| Client.ReleaseInfoSaved | musicbrainz_bot/editing.py:655-682 | a true result means every expected value held and some differed, and the two submissions carry every new value and the note |
| Client.MusicBrainzClient.ConfirmRelease | musicbrainz_bot/editing.py:670-682 | the method performs `Confirm` on the browser |
| Client.MusicBrainzClient.EditReleaseInformation | musicbrainz_bot/editing.py:655-682 | the loop over the attributes, with the early returns, performs `ReleaseInfoOf` |
| Browser.FirstPostForm | musicbrainz_bot/editing.py:164-167 | the first POST form whose action contains the given text, or none when no form qualifies |
| Browser.Browser.SelectForm | musicbrainz_bot/editing.py:164-167 | `_select_form` selects that form, or raises when there is none |

## Left out

- `login`, `url` (query encoding), `merge`, `cancel_edit`, `add_edit_note` and `edit_artist_credit` are not modelled. They are navigation or HTML scraping with nothing of the core's logic.
- `Client.MusicBrainzClient.constructor`: does not log in. Request headers, the server address and the test-database flag are not modelled either.
- The callers that compose the modelled steps are not modelled: `add_release`, `add_artist`, `add_area`, `edit_area`, `edit_artist`, `edit_work`, `edit_relationship`, `remove_relationship` and the `set_release_*` wrappers. Their parts are modelled: `create_payload`, `album_to_form`, the field guards, the submit tail and `_edit_release_information`.
- The network and the `mechanize` browser are not modelled. The server is a fixed function of the request, so redirects, cookies, timeouts and a server whose answer changes over time are outside the model.
- `Browser.Browser.SelectForm`: does not model the lower-casing of the form method; a form is POST or not.
- A form's controls are name-to-value only. Readonly flags, and making a control writable before writing it (`_edit_release_information`), are not modelled. Two controls with the same name are not modelled either.
- UTF-8 encoding of notes and values (`.encode("utf8")`) is not modelled: a note is written as the string itself. JSON decoding is not modelled either: a response carries its decoded body, or none when the body is not JSON.
- `Client.MusicBrainzClient.EditsLeftToday`: the current UTC date is a parameter instead of `datetime.utcnow()`. The `print` diagnostics and `time.sleep` delays are not modelled.
- `Client.MbidOf`: the entity type is matched as literal text, so regular-expression metacharacters in it are not modelled.
- `Quota.MatchAt`: follows the pattern exactly. A count with two or more separators ("1,234,567") is not matched, as in the source, and that page then reads as 0 edits left.
- `Relationship.RelPayload`: every endpoint is taken to carry a str `type`, because the sort compares type tags as strings. A `type` missing from an endpoint dict (a KeyError in the source) is not modelled.
- A guard's early return is `Ok(None)`, `_edit_release_information` returns false, and a failed page fetch in a quota query raises its HTTP error. Early returns are not given an outcome type of their own.
- `Album.AlbumForm`: the album is a record, so a missing `artist`, `title`, `mediums` or `_id` key, or a missing medium or track field, cannot be expressed. The KeyError that `album_to_form` raises for each of them is not modelled. The field types are fixed too: a track length is an integer and `_id` a string.
