/** `MusicBrainzClient`: the quota queries, the reading of result pages and
    URLs, the relationship web service call and the guarded form edits, over
    the recorded browser. Each operation is first a function on the browser
    state (`Session`), then a method of `Client` proved to do exactly that,
    and the guards' promises are lemmas about the functions. */
module Client {
  import opened Strings
  import opened Values
  import opened Browser
  import opened Quota
  import opened Relationship

  // ---- pages and URLs -----------------------------------------------------------

  const ThankYou := "Thank you, your "
  const AlreadyDone := "any changes to the data already present"
  const ReleaseSaved := "Release information"

  /** `_check_response(already_done_msg)` on a page: applied when the page
      thanks the editor, "nothing to do" when it instead carries a non-empty
      `already_done_msg`, and "unable to post edit" otherwise. */
  function CheckPage(page: string, doneMsg: Option<string>): (r: Outcome<bool>)
    ensures r == Ok(true) <==> Contains(page, ThankYou)
    ensures r == Ok(false) <==>
      !Contains(page, ThankYou) && doneMsg.Some? && doneMsg.value != "" && Contains(page, doneMsg.value)
    ensures r.Raised? ==> r.error == UnableToPostEdit
  {
    if Contains(page, ThankYou) then Ok(true)
    else if doneMsg.None? || doneMsg.value == "" || !Contains(page, doneMsg.value) then Raised(UnableToPostEdit)
    else Ok(false)
  }

  /** A page with neither marker, or any page when there is no message, raises. */
  lemma CheckPageRaises(page: string, doneMsg: Option<string>)
    requires !Contains(page, ThankYou)
    requires doneMsg.None? || doneMsg.value == "" || !Contains(page, doneMsg.value)
    ensures CheckPage(page, doneMsg) == Raised(UnableToPostEdit)
  {
  }

  predicate MbidChar(c: char) {
    '0' <= c <= '9' || 'a' <= c <= 'f' || c == '-'
  }

  /** An MBID as `[0-9a-f-]{36}` accepts it. */
  predicate MbidShape(m: string) {
    |m| == 36 && forall i :: 0 <= i < |m| ==> MbidChar(m[i])
  }

  /** What `/<type>/([0-9a-f-]{36})$` captures in a URL. `$` matches at the
      end or just before a final newline; only the latter can follow a
      capture when the URL ends in one. */
  function MbidOf(url: string, entityType: string): Option<string> {
    var body := if EndsWith(url, "\n") then url[..|url| - 1] else url;
    var tail := "/" + entityType + "/";
    if |body| >= |tail| + 36 && EndsWith(body[..|body| - 36], tail) && MbidShape(body[|body| - 36..])
    then Some(body[|body| - 36..])
    else None
  }

  /** A string ending in `tail` and then 36 characters splits there. */
  lemma TailSplit(body: string, tail: string)
    requires |body| >= |tail| + 36 && EndsWith(body[..|body| - 36], tail)
    ensures body == body[..|body| - 36 - |tail|] + tail + body[|body| - 36..]
  {
    var b1 := body[..|body| - 36];
    assert b1 == b1[..|b1| - |tail|] + b1[|b1| - |tail|..];
    assert b1[..|b1| - |tail|] == body[..|body| - 36 - |tail|];
    assert body == b1 + body[|body| - 36..];
  }

  /** What is captured is an MBID, right after `/<type>/` at the end of the
      URL or before its final newline; `x` is what comes before. */
  lemma MbidOfSound(url: string, entityType: string) returns (x: string)
    requires MbidOf(url, entityType).Some?
    ensures var m := MbidOf(url, entityType).value;
      MbidShape(m)
      && (url == x + "/" + entityType + "/" + m || url == x + "/" + entityType + "/" + m + "\n")
  {
    var m := MbidOf(url, entityType).value;
    var tail := "/" + entityType + "/";
    var body := if EndsWith(url, "\n") then url[..|url| - 1] else url;
    x := body[..|body| - 36 - |tail|];
    TailSplit(body, tail);
    assert body == x + "/" + entityType + "/" + m;
    if EndsWith(url, "\n") {
      assert url == body + "\n";
    }
  }

  /** Any URL of an entity page yields its MBID, with or without a final
      newline: the extraction inverts building `.../<type>/<mbid>`. */
  lemma MbidOfComplete(x: string, entityType: string, m: string)
    requires MbidShape(m)
    ensures MbidOf(x + "/" + entityType + "/" + m, entityType) == Some(m)
    ensures MbidOf(x + "/" + entityType + "/" + m + "\n", entityType) == Some(m)
  {
    var url := x + "/" + entityType + "/" + m;
    assert url[|url| - 1..] == [m[35]];
    assert MbidChar(m[35]);
    assert url[|url| - 36..] == m;
    assert url[..|url| - 36] == x + "/" + entityType + "/";
    var url' := url + "\n";
    assert url'[|url'| - 1..] == "\n";
    assert url'[..|url'| - 1] == url;
  }

  /** `_extract_mbid`: the captured MBID, or "unable to post edit". */
  function ExtractedMbid(url: string, entityType: string): Outcome<string> {
    match MbidOf(url, entityType)
    case Some(m) => Ok(m)
    case None => Raised(UnableToPostEdit)
  }

  // ---- quota --------------------------------------------------------------------

  const SearchEdits := "/search/edits"
  const TodayCap := 1000
  const GlobalCap := 2000

  /** The edit search for the editor's edits loaded since `today`. */
  function TodayQuery(username: string, editorId: Scalar, today: string): map<string, string> {
    map[
      "page" := "2000", "combinator" := "and", "negation" := "0",
      "conditions.0.field" := "open_time", "conditions.0.operator" := ">",
      "conditions.0.args.0" := today, "conditions.0.args.1" := "",
      "conditions.1.field" := "editor", "conditions.1.operator" := "=",
      "conditions.1.name" := username, "conditions.1.args.0" := ToStr(editorId)]
  }

  /** The edit search for the editor's open edits. */
  function GlobalQuery(username: string, editorId: Scalar): map<string, string> {
    map[
      "page" := "2000", "combinator" := "and", "negation" := "0",
      "conditions.0.field" := "editor", "conditions.0.operator" := "=",
      "conditions.0.name" := username, "conditions.0.args.0" := ToStr(editorId),
      "conditions.1.field" := "status", "conditions.1.operator" := "=",
      "conditions.1.args" := "1"]
  }

  /** A quota query: nothing left and nothing sent without an editor id;
      otherwise the search page is loaded and its count read. */
  function QuotaQuery(st: Session, server: Request -> Response, editorId: Scalar, query: map<string, string>, cap: int): Step<int> {
    if editorId == Null then Step(st, Ok(0))
    else
      var f := Fetch(st, server, Get(SearchEdits, query));
      if f.out.Raised? then Step(f.st, Raised(f.out.error))
      else Step(f.st, Ok(Remaining(cap, f.st.response.body)))
  }

  /** A quota query sends at most the one search; what it returns lies in
      `[0, cap]` and is `max(0, cap - n)` for the first count phrase of the
      result page, 0 when the page has none. */
  lemma QuotaQueryBounds(st: Session, server: Request -> Response, editorId: Scalar, query: map<string, string>, cap: int)
    requires cap >= 0
    ensures var q := QuotaQuery(st, server, editorId, query, cap);
      (editorId == Null ==> q == Step(st, Ok(0)))
      && (editorId != Null ==> Sent(st, q.st, [Get(SearchEdits, query)]))
      && (q.out.Ok? ==> 0 <= q.out.value <= cap)
      && (editorId != Null && q.out.Ok? ==>
            q.out.value == Remaining(cap, server(Get(SearchEdits, query)).body)
            && (FindCount(q.st.response.body).None? ==> q.out.value == 0))
  {
    var q := QuotaQuery(st, server, editorId, query, cap);
    if editorId != Null && q.out.Ok? {
      RemainingBounds(cap, q.st.response.body);
    }
  }

  /** `edits_left`: both budgets, in that order; the smaller one is left. */
  function EditsLeftOf(st: Session, server: Request -> Response, username: string, editorId: Scalar, today: string): Step<int> {
    var t := QuotaQuery(st, server, editorId, TodayQuery(username, editorId, today), TodayCap);
    if t.out.Raised? then t
    else
      var g := QuotaQuery(t.st, server, editorId, GlobalQuery(username, editorId), GlobalCap);
      if g.out.Raised? then g
      else Step(g.st, Ok(if t.out.value <= g.out.value then t.out.value else g.out.value))
  }

  /** What is left overall is at most either budget and never negative, and
      it is one of the two. */
  lemma {:induction false} EditsLeftBounds(st: Session, server: Request -> Response, username: string, editorId: Scalar, today: string)
    ensures var e := EditsLeftOf(st, server, username, editorId, today);
      e.out.Ok? ==> 0 <= e.out.value <= TodayCap
    ensures var e := EditsLeftOf(st, server, username, editorId, today);
      editorId == Null ==> e == Step(st, Ok(0))
    ensures var t := QuotaQuery(st, server, editorId, TodayQuery(username, editorId, today), TodayCap);
      var e := EditsLeftOf(st, server, username, editorId, today);
      t.out.Ok? && e.out.Ok? ==>
        var g := QuotaQuery(t.st, server, editorId, GlobalQuery(username, editorId), GlobalCap);
        g.out.Ok? && e.out.value <= t.out.value && e.out.value <= g.out.value
        && (e.out.value == t.out.value || e.out.value == g.out.value)
  {
    var t := QuotaQuery(st, server, editorId, TodayQuery(username, editorId, today), TodayCap);
    QuotaQueryBounds(st, server, editorId, TodayQuery(username, editorId, today), TodayCap);
    if t.out.Ok? {
      QuotaQueryBounds(t.st, server, editorId, GlobalQuery(username, editorId), GlobalCap);
    }
  }

  // ---- the relationship web service ----------------------------------------------

  const RelationshipEditor := "/relationship-editor"

  /** `_relationship_editor_webservice_action`: the id guard, the POST of the
      payload, and the reading of the reply. A 400 reply is still read; any
      other error status is "unable to post edit". */
  function RelAction(st: Session, server: Request -> Response, e: RelEdit): Step<bool> {
    if MissingId(e) then Step(st, Raised(MissingRelationshipId(e.action)))
    else
      var f := Fetch(st, server, Post(RelationshipEditor, RelPayload(e)));
      if f.out.Raised? && f.st.response.status != 400 then Step(f.st, Raised(UnableToPostEdit))
      else Step(f.st, ClassifyReply(f.st.response.json))
  }

  /** Editing or removing without an id raises before anything is sent; any
      other call sends exactly the payload, once, and its result is the
      reply's reading. */
  lemma RelActionSends(st: Session, server: Request -> Response, e: RelEdit)
    ensures MissingId(e) ==> RelAction(st, server, e) == Step(st, Raised(MissingRelationshipId(e.action)))
    ensures !MissingId(e) ==>
      var r := RelAction(st, server, e);
      var reply := server(Post(RelationshipEditor, RelPayload(e)));
      Sent(st, r.st, [Post(RelationshipEditor, RelPayload(e))])
      && (r.out.Ok? ==> (HttpOk(reply.status) || reply.status == 400) && r.out == ClassifyReply(reply.json))
  {
  }

  /** A result of "applied" or "no changes" comes only from a well-formed
      reply, and "no changes" exactly when its first edit says so. */
  lemma {:induction false} RelActionResult(st: Session, server: Request -> Response, e: RelEdit)
    requires RelAction(st, server, e).out.Ok?
    ensures var reply := server(Post(RelationshipEditor, RelPayload(e)));
      !MissingId(e) && reply.json.Some?
      && reply.json.value.JObj? && "edits" in reply.json.value.fields && "error" !in reply.json.value.fields
      && (RelAction(st, server, e).out == Ok(false) <==>
            WellFormedReply(reply.json.value) && FirstEdit(reply.json.value).JObj?
            && "message" in FirstEdit(reply.json.value).fields
            && FirstEdit(reply.json.value).fields["message"] == JStr("no changes"))
  {
    var reply := server(Post(RelationshipEditor, RelPayload(e)));
    assert reply.json.Some?;
    ReplyOkNeedsEdits(reply.json.value);
    ReplyNoChangesIff(reply.json.value);
  }

  /** `add_url`'s arguments: a new relationship from the entity to a URL. */
  function UrlEdit(entityType: string, entityId: Scalar, linkType: Scalar, url: Scalar, editNote: string, auto: bool): RelEdit {
    RelEdit("add", Null, linkType, editNote, auto,
      Endpoint([("gid", entityId)], entityType), Endpoint([("url", url)], "url"),
      [], [], [], Bool(false))
  }

  /** `add_url` always sends: it adds, so it needs no id, and it sends none. */
  lemma {:induction false} UrlEditSent(entityType: string, entityId: Scalar, linkType: Scalar, url: Scalar, editNote: string, auto: bool)
    ensures var e := UrlEdit(entityType, entityId, linkType, url, editNote, auto);
      !MissingId(e) && IdKey !in RelPayload(e) && EndedKey !in RelPayload(e)
      && ActionKey in RelPayload(e) && RelPayload(e)[ActionKey] == Str("add")
  {
    var e := UrlEdit(entityType, entityId, linkType, url, editNote, auto);
    IdOnlyWhenTruthy(e);
    EndedOnlyWhenTrue(e);
    FixedFields(e);
  }

  // ---- form steps shared by the edits ---------------------------------------------

  /** Propagate what a step raised. */
  function Fail<T>(s: Step<()>): Step<T>
    requires s.out.Raised?
  {
    Step(s.st, Raised(s.out.error))
  }

  /** `_as_auto_editor`: clear the "make votable" box for an auto-edit and tick
      it otherwise; a form without the box is left as it is. */
  function AutoEditor(st: Session, prefix: string, auto: bool): Step<()> {
    var w := Write(st, prefix + "make_votable", Choice(if auto then [] else ["1"]));
    if w.out.Raised? && w.out.error.ControlNotFound? then Step(st, Ok(())) else w
  }

  /** `_edit_note_and_auto_editor_and_submit_and_check_response`: write the
      note, set the auto-edit box, submit, and read the result page. */
  function NoteAndSubmit(st: Session, server: Request -> Response, prefix: string, auto: bool, note: string): Step<bool> {
    var s1 := Write(st, prefix + "edit_note", Text(note));
    if s1.out.Raised? then Fail(s1)
    else
      var s2 := AutoEditor(s1.st, prefix, auto);
      if s2.out.Raised? then Fail(s2)
      else
        var s3 := Submitted(s2.st, server, "");
        if s3.out.Raised? then Fail(s3)
        else Step(s3.st, CheckPage(s3.st.response.body, Some(AlreadyDone)))
  }

  /** The auto-edit step touches at most the "make votable" box. */
  lemma AutoEditorKeeps(st: Session, prefix: string, auto: bool)
    requires st.form.Some?
    requires AutoEditor(st, prefix, auto).out.Ok?
    ensures var a := AutoEditor(st, prefix, auto).st;
      a.form.Some? && a.response == st.response && a.log == st.log
      && a.form.value.action == st.form.value.action
      && (forall k :: k != prefix + "make_votable" ==>
            (k in a.form.value.controls <==> k in st.form.value.controls)
            && (k in st.form.value.controls ==> a.form.value.controls[k] == st.form.value.controls[k]))
  {
  }

  /** Submitting through the shared tail sends the form once, as `fields`:
      the note written and every other control but the auto-edit box as it
      was; the result is the reading of the page that comes back. */
  lemma {:induction false} NoteAndSubmitSends(st: Session, server: Request -> Response, prefix: string, auto: bool, note: string)
    returns (fields: map<string, Control>)
    requires NoteAndSubmit(st, server, prefix, auto, note).out.Ok?
    ensures st.form.Some?
    ensures var r := NoteAndSubmit(st, server, prefix, auto, note);
      Sent(st, r.st, [Submission(st.form.value.action, "", fields)])
      && prefix + "edit_note" in fields && fields[prefix + "edit_note"] == Text(note)
      && (forall k :: k in st.form.value.controls && k != prefix + "edit_note" && k != prefix + "make_votable" ==>
            k in fields && fields[k] == st.form.value.controls[k])
      && r.out == CheckPage(server(Submission(st.form.value.action, "", fields)).body, Some(AlreadyDone))
  {
    var s1 := Write(st, prefix + "edit_note", Text(note));
    WriteChangesOne(st, prefix + "edit_note", Text(note));
    var s2 := AutoEditor(s1.st, prefix, auto);
    AutoEditorKeeps(s1.st, prefix, auto);
    fields := s2.st.form.value.controls;
    SubmitSendsOne(s2.st, server, "");
  }

  // ---- field guards ------------------------------------------------------------

  /** `_update_entity_if_not_set`: when `item` is to be updated, write the
      entity's value into `edit-<type>.<item><suffix>`, but only if the field
      is still empty (`[""]` for a list control, `""` for a text control);
      a field already set is left alone and reported with false. */
  function UpdateEntity(st: Session, update: set<string>, entity: map<string, Scalar>, entityType: string,
                        item: string, suffix: string, utf8ize: bool, inarray: bool): Step<bool> {
    if item !in update then Step(st, Ok(true))
    else
      var key := "edit-" + entityType + "." + item + suffix;
      match Read(st, key)
      case Raised(e) => Step(st, Raised(e))
      case Ok(live) =>
        if live != (if inarray then Choice([""]) else Text("")) then Step(st, Ok(false))
        else if item !in entity then Step(st, Raised(KeyError(item)))
        else if utf8ize && !entity[item].Str? then Step(st, Raised(AttributeError))
        else
          var val := ToStr(entity[item]);
          var w := Write(st, key, if inarray then Choice([val]) else Text(val));
          if w.out.Raised? then Fail(w) else Step(w.st, Ok(true))
  }

  /** An item not asked for changes nothing; a field already set is never
      overwritten; a write happens only into an empty field and puts exactly
      the entity's value there. No guard sends anything. */
  lemma {:induction false} UpdateEntityGuard(st: Session, update: set<string>, entity: map<string, Scalar>, entityType: string,
                                             item: string, suffix: string, utf8ize: bool, inarray: bool)
    ensures item !in update ==> UpdateEntity(st, update, entity, entityType, item, suffix, utf8ize, inarray) == Step(st, Ok(true))
    ensures var r := UpdateEntity(st, update, entity, entityType, item, suffix, utf8ize, inarray);
      var key := "edit-" + entityType + "." + item + suffix;
      var empty := if inarray then Choice([""]) else Text("");
      r.st.log == st.log && r.st.response == st.response
      && (r.out == Ok(false) <==> item in update && Read(st, key).Ok? && Read(st, key).value != empty)
      && (r.out == Ok(false) ==> r.st == st)
      && (item in update && r.out == Ok(true) ==>
            Read(st, key) == Ok(empty) && item in entity
            && var val := ToStr(entity[item]);
            r.st.form == Some(st.form.value.(controls := st.form.value.controls[key := if inarray then Choice([val]) else Text(val)])))
  {
    var r := UpdateEntity(st, update, entity, entityType, item, suffix, utf8ize, inarray);
    var key := "edit-" + entityType + "." + item + suffix;
    if item in update && Read(st, key).Ok? && item in entity {
      var val := ToStr(entity[item]);
      if r.out == Ok(true) {
        WriteChangesOne(st, key, if inarray then Choice([val]) else Text(val));
      }
    }
  }

  /** `_update_artist_date_if_not_set`: when `<prefix>_date` is to be updated,
      fill its year, then its month when the artist has one, then its day
      when it has both, but only when the year field is still empty. */
  function UpdateDate(st: Session, update: set<string>, artist: map<string, Scalar>, itemPrefix: string): Step<bool> {
    var item := itemPrefix + "_date";
    if item !in update then Step(st, Ok(true))
    else
      var prefix := "edit-artist.period." + item;
      match Read(st, prefix + ".year")
      case Raised(e) => Step(st, Raised(e))
      case Ok(year) =>
        if ControlTruthy(year) then Step(st, Ok(false))
        else if item + "_year" !in artist then Step(st, Raised(KeyError(item + "_year")))
        else
          var s1 := Write(st, prefix + ".year", Text(ToStr(artist[item + "_year"])));
          if s1.out.Raised? then Fail(s1)
          else if item + "_month" !in artist then Step(s1.st, Raised(KeyError(item + "_month")))
          else if !Truthy(artist[item + "_month"]) then Step(s1.st, Ok(true))
          else
            var s2 := Write(s1.st, prefix + ".month", Text(ToStr(artist[item + "_month"])));
            if s2.out.Raised? then Fail(s2)
            else if item + "_day" !in artist then Step(s2.st, Raised(KeyError(item + "_day")))
            else if !Truthy(artist[item + "_day"]) then Step(s2.st, Ok(true))
            else
              var s3 := Write(s2.st, prefix + ".day", Text(ToStr(artist[item + "_day"])));
              if s3.out.Raised? then Fail(s3) else Step(s3.st, Ok(true))
  }

  /** A date whose year is already set is never touched; a filled date has
      the artist's year, has the artist's month exactly when that is set, and
      the artist's day exactly when month and day are both set. */
  lemma {:induction false} UpdateDateGuard(st: Session, update: set<string>, artist: map<string, Scalar>, itemPrefix: string)
    ensures var r := UpdateDate(st, update, artist, itemPrefix);
      var item := itemPrefix + "_date";
      var prefix := "edit-artist.period." + item;
      r.st.log == st.log && r.st.response == st.response
      && (item !in update ==> r == Step(st, Ok(true)))
      && (r.out == Ok(false) <==> item in update && Read(st, prefix + ".year").Ok? && ControlTruthy(Read(st, prefix + ".year").value))
      && (r.out == Ok(false) ==> r.st == st)
      && (item in update && r.out == Ok(true) ==>
            !ControlTruthy(Read(st, prefix + ".year").value)
            && item + "_year" in artist && item + "_month" in artist
            && Read(r.st, prefix + ".year") == Ok(Text(ToStr(artist[item + "_year"])))
            && (Truthy(artist[item + "_month"]) ==>
                  Read(r.st, prefix + ".month") == Ok(Text(ToStr(artist[item + "_month"])))
                  && item + "_day" in artist
                  && (Truthy(artist[item + "_day"]) ==> Read(r.st, prefix + ".day") == Ok(Text(ToStr(artist[item + "_day"]))))
                  && (!Truthy(artist[item + "_day"]) ==> Read(r.st, prefix + ".day") == Read(st, prefix + ".day")))
            && (!Truthy(artist[item + "_month"]) ==>
                  Read(r.st, prefix + ".month") == Read(st, prefix + ".month") && Read(r.st, prefix + ".day") == Read(st, prefix + ".day")))
  {
    var item := itemPrefix + "_date";
    var prefix := "edit-artist.period." + item;
    var r := UpdateDate(st, update, artist, itemPrefix);
    if item in update && r.out == Ok(true) {
      DateFilled(st, artist, prefix, item);
    }
  }

  /** The writes of a filled date, one at a time. */
  lemma DateFilled(st: Session, artist: map<string, Scalar>, prefix: string, item: string)
    requires Read(st, prefix + ".year").Ok? && !ControlTruthy(Read(st, prefix + ".year").value)
    requires item + "_year" in artist
    requires Write(st, prefix + ".year", Text(ToStr(artist[item + "_year"]))).out.Ok?
    ensures var s1 := Write(st, prefix + ".year", Text(ToStr(artist[item + "_year"])));
      Read(s1.st, prefix + ".year") == Ok(Text(ToStr(artist[item + "_year"])))
      && Read(s1.st, prefix + ".month") == Read(st, prefix + ".month")
      && Read(s1.st, prefix + ".day") == Read(st, prefix + ".day")
      && (item + "_month" in artist && Write(s1.st, prefix + ".month", Text(ToStr(artist[item + "_month"]))).out.Ok? ==>
            var s2 := Write(s1.st, prefix + ".month", Text(ToStr(artist[item + "_month"])));
            Read(s2.st, prefix + ".year") == Ok(Text(ToStr(artist[item + "_year"])))
            && Read(s2.st, prefix + ".month") == Ok(Text(ToStr(artist[item + "_month"])))
            && Read(s2.st, prefix + ".day") == Read(st, prefix + ".day")
            && (item + "_day" in artist && Write(s2.st, prefix + ".day", Text(ToStr(artist[item + "_day"]))).out.Ok? ==>
                  var s3 := Write(s2.st, prefix + ".day", Text(ToStr(artist[item + "_day"])));
                  Read(s3.st, prefix + ".year") == Ok(Text(ToStr(artist[item + "_year"])))
                  && Read(s3.st, prefix + ".month") == Ok(Text(ToStr(artist[item + "_month"])))
                  && Read(s3.st, prefix + ".day") == Ok(Text(ToStr(artist[item + "_day"])))))
  {
    assert prefix + ".year" != prefix + ".month" by {
      assert (prefix + ".year")[|prefix| + 1] == 'y';
      assert (prefix + ".month")[|prefix| + 1] == 'm';
    }
    assert prefix + ".year" != prefix + ".day" by {
      assert (prefix + ".year")[|prefix| + 1] == 'y';
      assert (prefix + ".day")[|prefix| + 1] == 'd';
    }
    assert prefix + ".month" != prefix + ".day" by {
      assert (prefix + ".month")[|prefix| + 1] == 'm';
      assert (prefix + ".day")[|prefix| + 1] == 'd';
    }
  }

  /** The date guard touches at most the three fields of that date: every
      other control, and the form itself, are as they were. */
  lemma UpdateDateFrame(st: Session, update: set<string>, artist: map<string, Scalar>, itemPrefix: string, k: string)
    ensures var r := UpdateDate(st, update, artist, itemPrefix);
      var prefix := "edit-artist.period." + itemPrefix + "_date";
      (r.st.form.Some? <==> st.form.Some?)
      && (st.form.Some? ==> r.st.form.value.(controls := st.form.value.controls) == st.form.value)
      && (k != prefix + ".year" && k != prefix + ".month" && k != prefix + ".day" ==> Read(r.st, k) == Read(st, k))
  {
    var item := itemPrefix + "_date";
    var prefix := "edit-artist.period." + item;
    if item in update && Read(st, prefix + ".year").Ok? && !ControlTruthy(Read(st, prefix + ".year").value)
       && item + "_year" in artist {
      var s1 := Write(st, prefix + ".year", Text(ToStr(artist[item + "_year"])));
      WriteFrame(st, prefix + ".year", Text(ToStr(artist[item + "_year"])), k);
      if s1.out.Ok? && item + "_month" in artist && Truthy(artist[item + "_month"]) {
        var s2 := Write(s1.st, prefix + ".month", Text(ToStr(artist[item + "_month"])));
        WriteFrame(s1.st, prefix + ".month", Text(ToStr(artist[item + "_month"])), k);
        if s2.out.Ok? && item + "_day" in artist && Truthy(artist[item + "_day"]) {
          WriteFrame(s2.st, prefix + ".day", Text(ToStr(artist[item + "_day"])), k);
        }
      }
    }
  }

  /** A write keeps the form's action and method and every other control. */
  lemma WriteFrame(st: Session, key: string, v: Control, k: string)
    ensures var w := Write(st, key, v).st;
      (w.form.Some? <==> st.form.Some?)
      && (st.form.Some? ==> w.form.value.(controls := st.form.value.controls) == st.form.value)
      && (k != key ==> Read(w, k) == Read(st, k))
  {
  }

  // ---- guarded edits ------------------------------------------------------------

  /** Open an entity's edit page and select its edit form. */
  function OpenEditForm(st: Session, server: Request -> Response, page: Request): Step<()> {
    var s1 := Fetch(st, server, page);
    if s1.out.Raised? then s1 else Selected(s1.st, "/edit")
  }

  /** Once the edit form is open, the page fetch is the one request sent. */
  lemma OpenEditFormSends(st: Session, server: Request -> Response, page: Request)
    requires OpenEditForm(st, server, page).out.Ok?
    ensures Sent(st, OpenEditForm(st, server, page).st, [page]) && OpenEditForm(st, server, page).st.form.Some?
  {
  }

  /** The shared tail's result as the guarded edits return it. */
  function Submitted'(s: Step<bool>): Outcome<Option<bool>> {
    if s.out.Raised? then Raised(s.out.error) else Ok(Some(s.out.value))
  }

  /** `set_artist_type` on its open form: leave a type already chosen;
      otherwise choose `type_id` and submit. `None` is the early return. */
  function SetTypeOnForm(st: Session, server: Request -> Response, typeId: Scalar, note: string, auto: bool): Step<Option<bool>> {
    match Read(st, "edit-artist.type_id")
    case Raised(e) => Step(st, Raised(e))
    case Ok(live) =>
      if live != Choice([""]) then Step(st, Ok(None))
      else
        var s1 := Write(st, "edit-artist.type_id", Choice([ToStr(typeId)]));
        if s1.out.Raised? then Fail(s1)
        else
          var s2 := NoteAndSubmit(s1.st, server, "edit-artist.", auto, note);
          Step(s2.st, Submitted'(s2))
  }

  /** `set_artist_type`: open the artist's edit page, then the above. */
  function SetArtistTypeOf(st: Session, server: Request -> Response, entityId: string, typeId: Scalar, note: string, auto: bool): Step<Option<bool>> {
    var s := OpenEditForm(st, server, Get("/artist/" + entityId + "/edit", map[]));
    if s.out.Raised? then Fail(s) else SetTypeOnForm(s.st, server, typeId, note, auto)
  }

  /** A type already chosen is left alone: the early return changes nothing. */
  lemma SetTypeGuard(st: Session, server: Request -> Response, typeId: Scalar, note: string, auto: bool)
    ensures var r := SetTypeOnForm(st, server, typeId, note, auto);
      (r.out == Ok(None) <==>
         Read(st, "edit-artist.type_id").Ok? && Read(st, "edit-artist.type_id").value != Choice([""]))
      && (r.out == Ok(None) ==> r.st == st)
  {
  }

  /** A submitted type edit was made from an empty type; it sends the form
      once, carrying the new type and the note. */
  lemma {:induction false} SetTypeSubmits(st: Session, server: Request -> Response, typeId: Scalar, note: string, auto: bool)
    returns (fields: map<string, Control>)
    requires SetTypeOnForm(st, server, typeId, note, auto).out.Ok? && SetTypeOnForm(st, server, typeId, note, auto).out.value.Some?
    ensures var r := SetTypeOnForm(st, server, typeId, note, auto);
      Read(st, "edit-artist.type_id") == Ok(Choice([""]))
      && Sent(st, r.st, [Submission(st.form.value.action, "", fields)])
      && "edit-artist.type_id" in fields && fields["edit-artist.type_id"] == Choice([ToStr(typeId)])
      && "edit-artist." + "edit_note" in fields && fields["edit-artist." + "edit_note"] == Text(note)
  {
    var s1 := Write(st, "edit-artist.type_id", Choice([ToStr(typeId)]));
    WriteChangesOne(st, "edit-artist.type_id", Choice([ToStr(typeId)]));
    fields := NoteAndSubmitSends(s1.st, server, "edit-artist.", auto, note);
  }


  /** `set_artist_type` sends the page fetch and, past the guard, one submission. */
  lemma {:induction false} SetArtistTypeSends(st: Session, server: Request -> Response, entityId: string, typeId: Scalar, note: string, auto: bool)
    returns (sub: Request)
    ensures var page := Get("/artist/" + entityId + "/edit", map[]);
      var s := OpenEditForm(st, server, page);
      var r := SetArtistTypeOf(st, server, entityId, typeId, note, auto);
      r.out.Ok? ==>
        s.out.Ok? && r == SetTypeOnForm(s.st, server, typeId, note, auto)
        && (r.out == Ok(None) ==> Sent(st, r.st, [page]))
        && (r.out.value.Some? ==> Sent(st, r.st, [page, sub]) && sub.Submission?)
  {
    var page := Get("/artist/" + entityId + "/edit", map[]);
    sub := page;
    var s := OpenEditForm(st, server, page);
    var r := SetArtistTypeOf(st, server, entityId, typeId, note, auto);
    if r.out.Ok? {
      OpenEditFormSends(st, server, page);
      SetTypeGuard(s.st, server, typeId, note, auto);
      if r.out.value.Some? {
        var fields := SetTypeSubmits(s.st, server, typeId, note, auto);
        sub := Submission(s.st.form.value.action, "", fields);
      }
    }
  }

  /** `edit_url` on its open form: give up when the live URL is no longer
      `old_url` or already is `new_url`; otherwise write `new_url` and submit.
      `None` is the early return. */
  function EditUrlOnForm(st: Session, server: Request -> Response, oldUrl: Scalar, newUrl: Scalar, note: string, auto: bool): Step<Option<bool>> {
    match Read(st, "edit-url.url")
    case Raised(e) => Step(st, Raised(e))
    case Ok(live) =>
      if live != Text(ToStr(oldUrl)) then Step(st, Ok(None))
      else if live == Text(ToStr(newUrl)) then Step(st, Ok(None))
      else
        var s1 := Write(st, "edit-url.url", Text(ToStr(newUrl)));
        if s1.out.Raised? then Fail(s1)
        else
          var s2 := NoteAndSubmit(s1.st, server, "edit-url.", auto, note);
          Step(s2.st, Submitted'(s2))
  }

  /** `edit_url`: open the URL's edit page, then the above. */
  function EditUrlOf(st: Session, server: Request -> Response, entityId: string, oldUrl: Scalar, newUrl: Scalar, note: string, auto: bool): Step<Option<bool>> {
    var s := OpenEditForm(st, server, Get("/url/" + entityId + "/edit", map[]));
    if s.out.Raised? then Fail(s) else EditUrlOnForm(s.st, server, oldUrl, newUrl, note, auto)
  }

  /** The early return, which writes nothing, happens exactly when the live
      URL is no longer `old_url` or already is `new_url`. */
  lemma EditUrlGuard(st: Session, server: Request -> Response, oldUrl: Scalar, newUrl: Scalar, note: string, auto: bool)
    ensures var r := EditUrlOnForm(st, server, oldUrl, newUrl, note, auto);
      (r.out == Ok(None) <==>
         Read(st, "edit-url.url").Ok?
         && (Read(st, "edit-url.url").value != Text(ToStr(oldUrl)) || Read(st, "edit-url.url").value == Text(ToStr(newUrl))))
      && (r.out == Ok(None) ==> r.st == st)
  {
  }

  /** A submitted URL edit was made from `old_url`, which differs from
      `new_url`; it sends the form once, carrying `new_url` and the note. */
  lemma {:induction false} EditUrlSubmits(st: Session, server: Request -> Response, oldUrl: Scalar, newUrl: Scalar, note: string, auto: bool)
    returns (fields: map<string, Control>)
    requires EditUrlOnForm(st, server, oldUrl, newUrl, note, auto).out.Ok? && EditUrlOnForm(st, server, oldUrl, newUrl, note, auto).out.value.Some?
    ensures var r := EditUrlOnForm(st, server, oldUrl, newUrl, note, auto);
      Read(st, "edit-url.url") == Ok(Text(ToStr(oldUrl))) && ToStr(oldUrl) != ToStr(newUrl)
      && Sent(st, r.st, [Submission(st.form.value.action, "", fields)])
      && "edit-url.url" in fields && fields["edit-url.url"] == Text(ToStr(newUrl))
      && "edit-url." + "edit_note" in fields && fields["edit-url." + "edit_note"] == Text(note)
  {
    var s1 := Write(st, "edit-url.url", Text(ToStr(newUrl)));
    WriteChangesOne(st, "edit-url.url", Text(ToStr(newUrl)));
    fields := NoteAndSubmitSends(s1.st, server, "edit-url.", auto, note);
  }


  /** `edit_url` sends the page fetch and, past the guard, one submission. */
  lemma {:induction false} EditUrlSends(st: Session, server: Request -> Response, entityId: string, oldUrl: Scalar, newUrl: Scalar, note: string, auto: bool)
    returns (sub: Request)
    ensures var page := Get("/url/" + entityId + "/edit", map[]);
      var s := OpenEditForm(st, server, page);
      var r := EditUrlOf(st, server, entityId, oldUrl, newUrl, note, auto);
      r.out.Ok? ==>
        s.out.Ok? && r == EditUrlOnForm(s.st, server, oldUrl, newUrl, note, auto)
        && (r.out == Ok(None) ==> Sent(st, r.st, [page]))
        && (r.out.value.Some? ==> Sent(st, r.st, [page, sub]) && sub.Submission?)
  {
    var page := Get("/url/" + entityId + "/edit", map[]);
    sub := page;
    var s := OpenEditForm(st, server, page);
    var r := EditUrlOf(st, server, entityId, oldUrl, newUrl, note, auto);
    if r.out.Ok? {
      OpenEditFormSends(st, server, page);
      EditUrlGuard(s.st, server, oldUrl, newUrl, note, auto);
      if r.out.value.Some? {
        var fields := EditUrlSubmits(s.st, server, oldUrl, newUrl, note, auto);
        sub := Submission(s.st.form.value.action, "", fields);
      }
    }
  }

  // ---- release information ---------------------------------------------------------

  /** One entry of `_edit_release_information`'s `attributes`: the control,
      the value it must still hold (`None`: any value) and its new value. */
  datatype Attr = Attr(key: string, expected: Option<Control>, wanted: Control)

  /** Where the scan of the attributes stands: still going, with whether
      anything was changed so far, or given up on a changed value. */
  datatype Scan = Going(changed: bool) | Aborted

  /** One turn of the loop: give up when the live value is not the expected
      one; write the new value when it differs from the live one. */
  function ScanOne(st: Session, a: Attr, changed: bool): Step<Scan> {
    match Read(st, a.key)
    case Raised(e) => Step(st, Raised(e))
    case Ok(live) =>
      if a.expected.Some? && live != a.expected.value then Step(st, Ok(Aborted))
      else if live == a.wanted then Step(st, Ok(Going(changed)))
      else
        var w := Write(st, a.key, a.wanted);
        if w.out.Raised? then Fail(w) else Step(w.st, Ok(Going(true)))
  }

  /** The loop over the attributes in order, stopping at the first give-up
      or error. */
  function ScanAttrs(st: Session, attrs: seq<Attr>): Step<Scan>
    decreases |attrs|
  {
    if attrs == [] then Step(st, Ok(Going(false)))
    else
      var prev := ScanAttrs(st, attrs[..|attrs| - 1]);
      if prev.out.Ok? && prev.out.value.Going? then ScanOne(prev.st, attrs[|attrs| - 1], prev.out.value.changed)
      else prev
  }

  /** The attributes come from a dict: no key twice. */
  predicate DistinctKeys(attrs: seq<Attr>) {
    forall i, j :: 0 <= i < j < |attrs| ==> attrs[i].key != attrs[j].key
  }

  /** The writes the scan makes when it runs through, as dict updates. */
  function NewPairs(attrs: seq<Attr>): seq<(string, Control)> {
    seq(|attrs|, i requires 0 <= i < |attrs| => (attrs[i].key, attrs[i].wanted))
  }

  /** Some attribute's live value differs from its new value. */
  predicate AnyDiffers(controls: map<string, Control>, attrs: seq<Attr>) {
    exists i :: 0 <= i < |attrs| && attrs[i].key in controls && controls[attrs[i].key] != attrs[i].wanted
  }

  /** The scan reads and writes the form only: nothing is sent. */
  lemma {:induction false} ScanSendsNothing(st: Session, attrs: seq<Attr>)
    ensures ScanAttrs(st, attrs).st.log == st.log && ScanAttrs(st, attrs).st.response == st.response
    decreases |attrs|
  {
    if attrs != [] {
      ScanSendsNothing(st, attrs[..|attrs| - 1]);
    }
  }

  /** A scan that runs through found every control, found each one that has
      an expected value still holding it, and leaves the form with every new
      value written and nothing else changed; it reports a change exactly
      when some live value differed from its new value. */
  lemma {:induction false} ScanThrough(st: Session, attrs: seq<Attr>)
    requires DistinctKeys(attrs) && st.form.Some?
    requires ScanAttrs(st, attrs).out.Ok? && ScanAttrs(st, attrs).out.value.Going?
    ensures ScanAttrs(st, attrs).st == st.(form := Some(st.form.value.(controls := PutAll(st.form.value.controls, NewPairs(attrs)))))
    ensures forall i :: 0 <= i < |attrs| ==> attrs[i].key in st.form.value.controls
    ensures forall i :: 0 <= i < |attrs| && attrs[i].expected.Some? ==> st.form.value.controls[attrs[i].key] == attrs[i].expected.value
    ensures ScanAttrs(st, attrs).out.value.changed <==> AnyDiffers(st.form.value.controls, attrs)
    decreases |attrs|
  {
    if attrs == [] {
      assert NewPairs(attrs) == [];
    } else {
      var n := |attrs| - 1;
      var init := attrs[..n];
      var prev := ScanAttrs(st, init);
      assert DistinctKeys(init);
      ScanThrough(st, init);
      ScanLast(st, attrs);
    }
  }

  /** The last turn of a scan that runs through, given the turns before it. */
  lemma ScanLast(st: Session, attrs: seq<Attr>)
    requires attrs != [] && DistinctKeys(attrs)
    requires ScanAttrs(st, attrs).out.Ok? && ScanAttrs(st, attrs).out.value.Going?
    requires var init := attrs[..|attrs| - 1];
      var prev := ScanAttrs(st, init);
      prev.out.Ok? && prev.out.value.Going? && st.form.Some?
      && prev.st == st.(form := Some(st.form.value.(controls := PutAll(st.form.value.controls, NewPairs(init)))))
      && (forall i :: 0 <= i < |init| ==> init[i].key in st.form.value.controls)
      && (forall i :: 0 <= i < |init| && init[i].expected.Some? ==> st.form.value.controls[init[i].key] == init[i].expected.value)
      && (prev.out.value.changed <==> AnyDiffers(st.form.value.controls, init))
    ensures ScanAttrs(st, attrs).st == st.(form := Some(st.form.value.(controls := PutAll(st.form.value.controls, NewPairs(attrs)))))
    ensures forall i :: 0 <= i < |attrs| ==> attrs[i].key in st.form.value.controls
    ensures forall i :: 0 <= i < |attrs| && attrs[i].expected.Some? ==> st.form.value.controls[attrs[i].key] == attrs[i].expected.value
    ensures ScanAttrs(st, attrs).out.value.changed <==> AnyDiffers(st.form.value.controls, attrs)
  {
    var n := |attrs| - 1;
    var m := st.form.value.controls;
    NewPairsLast(m, attrs);
    var pm := PutAll(m, NewPairs(attrs[..n]));
    if attrs[n].key in pm && pm[attrs[n].key] == attrs[n].wanted {
      assert pm[attrs[n].key := attrs[n].wanted] == pm;
    }
    assert forall i :: 0 <= i < n ==> attrs[..n][i] == attrs[i];
    AnyDiffersLast(m, attrs);
  }

  /** Writing the new values of all attributes is writing those before the
      last and then the last; the last key is not among the earlier ones. */
  lemma NewPairsLast(m: map<string, Control>, attrs: seq<Attr>)
    requires attrs != [] && DistinctKeys(attrs)
    ensures var n := |attrs| - 1;
      var pm := PutAll(m, NewPairs(attrs[..n]));
      PutAll(m, NewPairs(attrs)) == pm[attrs[n].key := attrs[n].wanted]
      && (attrs[n].key in pm <==> attrs[n].key in m)
      && (attrs[n].key in m ==> pm[attrs[n].key] == m[attrs[n].key])
  {
    var n := |attrs| - 1;
    var init := attrs[..n];
    var a := attrs[n];
    assert NewPairs(attrs)[..n] == NewPairs(init);
    assert !HasKey(NewPairs(init), a.key) by {
      forall i | 0 <= i < n ensures NewPairs(init)[i].0 != a.key {
        assert init[i] == attrs[i];
      }
    }
    PutAllKeys(m, NewPairs(init), a.key);
    if a.key in m {
      PutAllUntouched(m, NewPairs(init), a.key);
    }
    assert NewPairs(attrs)[n] == (a.key, a.wanted);
  }

  /** Some attribute differs when one before the last does or the last does. */
  lemma AnyDiffersLast(m: map<string, Control>, attrs: seq<Attr>)
    requires attrs != []
    ensures var n := |attrs| - 1;
      AnyDiffers(m, attrs) <==> AnyDiffers(m, attrs[..n]) || (attrs[n].key in m && m[attrs[n].key] != attrs[n].wanted)
  {
    var n := |attrs| - 1;
    if AnyDiffers(m, attrs[..n]) {
      var i :| 0 <= i < n && attrs[..n][i].key in m && m[attrs[..n][i].key] != attrs[..n][i].wanted;
      assert attrs[i] == attrs[..n][i];
    }
    if AnyDiffers(m, attrs) {
      var i :| 0 <= i < |attrs| && attrs[i].key in m && m[attrs[i].key] != attrs[i].wanted;
      if i < n {
        assert attrs[..n][i] == attrs[i];
      }
    }
  }

  /** After the scan: confirm the barcode, move to the edit-note step, write
      the note (a form without a note field is "unable to post edit"), set
      the auto-edit box, save, and look for the release page's heading. */
  function Confirm(st: Session, server: Request -> Response, note: string, auto: bool): Step<bool> {
    var s1 := Write(st, "barcode_confirm", Choice(["1"]));
    if s1.out.Raised? then Fail(s1)
    else
      var s2 := Submitted(s1.st, server, "step_editnote");
      if s2.out.Raised? then Fail(s2)
      else
        var s3 := Selected(s2.st, "/edit");
        if s3.out.Raised? then Fail(s3)
        else
          var s4 := Write(s3.st, "edit_note", Text(note));
          if s4.out.Raised? && s4.out.error.ControlNotFound? then Step(s4.st, Raised(UnableToPostEdit))
          else if s4.out.Raised? then Fail(s4)
          else
            var s5 := AutoEditor(s4.st, "", auto);
            if s5.out.Raised? then Fail(s5)
            else
              var s6 := Submitted(s5.st, server, "save");
              if s6.out.Raised? then Fail(s6)
              else if Contains(s6.st.response.body, ReleaseSaved) then Step(s6.st, Ok(true))
              else Step(s6.st, Raised(UnableToPostEdit))
  }

  /** `_edit_release_information`: open the release's edit page, scan the
      attributes, and go on to save only when something was changed. */
  function ReleaseInfoOf(st: Session, server: Request -> Response, entityId: string, attrs: seq<Attr>, note: string, auto: bool): Step<bool> {
    var s := OpenEditForm(st, server, Get("/release/" + entityId + "/edit", map[]));
    if s.out.Raised? then Fail(s)
    else
      var sc := ScanAttrs(s.st, attrs);
      match sc.out
      case Raised(e) => Step(sc.st, Raised(e))
      case Ok(Aborted) => Step(sc.st, Ok(false))
      case Ok(Going(changed)) => if changed then Confirm(sc.st, server, note, auto) else Step(sc.st, Ok(false))
  }

  /** A confirmed edit sends the scanned form with the barcode confirmed
      through "step_editnote", then the note form through "save", and ends on
      a page with the release heading. */
  lemma {:induction false} ConfirmSends(st: Session, server: Request -> Response, note: string, auto: bool)
    returns (action: string, second: map<string, Control>)
    requires Confirm(st, server, note, auto).out.Ok?
    ensures st.form.Some?
    ensures var r := Confirm(st, server, note, auto);
      var first := st.form.value.controls["barcode_confirm" := Choice(["1"])];
      r.out == Ok(true) && Contains(r.st.response.body, ReleaseSaved)
      && "barcode_confirm" in st.form.value.controls
      && Sent(st, r.st, [Submission(st.form.value.action, "step_editnote", first), Submission(action, "save", second)])
      && "edit_note" in second && second["edit_note"] == Text(note)
  {
    var s1 := Write(st, "barcode_confirm", Choice(["1"]));
    WriteChangesOne(st, "barcode_confirm", Choice(["1"]));
    var s2 := Submitted(s1.st, server, "step_editnote");
    SubmitSendsOne(s1.st, server, "step_editnote");
    var s3 := Selected(s2.st, "/edit");
    var s4 := Write(s3.st, "edit_note", Text(note));
    WriteChangesOne(s3.st, "edit_note", Text(note));
    var s5 := AutoEditor(s4.st, "", auto);
    AutoEditorKeeps(s4.st, "", auto);
    second := s5.st.form.value.controls;
    SubmitSendsOne(s5.st, server, "save");
    action := s5.st.form.value.action;
    assert Sent(st, Confirm(st, server, note, auto).st,
      [Submission(st.form.value.action, "step_editnote", st.form.value.controls["barcode_confirm" := Choice(["1"])]), Submission(action, "save", second)]);
  }

  /** Whatever stops the release edit early (a live value no longer the
      expected one, or nothing to change) sends nothing past the page fetch. */
  lemma {:induction false} ReleaseInfoFalse(st: Session, server: Request -> Response, entityId: string, attrs: seq<Attr>, note: string, auto: bool)
    requires ReleaseInfoOf(st, server, entityId, attrs, note, auto).out == Ok(false)
    ensures Sent(st, ReleaseInfoOf(st, server, entityId, attrs, note, auto).st, [Get("/release/" + entityId + "/edit", map[])])
  {
    var page := Get("/release/" + entityId + "/edit", map[]);
    var s := OpenEditForm(st, server, page);
    OpenEditFormSends(st, server, page);
    ScanSendsNothing(s.st, attrs);
  }

  /** The release edit returns false exactly when the scan of the loaded
      form gave up or found nothing to change; a page that cannot be loaded
      raises. */
  lemma ReleaseInfoFalseIff(st: Session, server: Request -> Response, entityId: string, attrs: seq<Attr>, note: string, auto: bool)
    ensures var s := OpenEditForm(st, server, Get("/release/" + entityId + "/edit", map[]));
      s.out.Raised? ==> ReleaseInfoOf(st, server, entityId, attrs, note, auto).out.Raised?
    ensures var s := OpenEditForm(st, server, Get("/release/" + entityId + "/edit", map[]));
      s.out.Ok? ==>
        (ReleaseInfoOf(st, server, entityId, attrs, note, auto).out == Ok(false) <==>
           ScanAttrs(s.st, attrs).out == Ok(Aborted) || ScanAttrs(s.st, attrs).out == Ok(Going(false)))
  {
    var s := OpenEditForm(st, server, Get("/release/" + entityId + "/edit", map[]));
    if s.out.Ok? {
      var sc := ScanAttrs(s.st, attrs);
      if sc.out == Ok(Going(true)) {
        ConfirmNeverFalse(sc.st, server, note, auto);
      }
    }
  }

  /** Confirming either saves or raises. */
  lemma ConfirmNeverFalse(st: Session, server: Request -> Response, note: string, auto: bool)
    ensures Confirm(st, server, note, auto).out != Ok(false)
  {
  }

  /** A scan gives up at the first attribute whose expected value the loaded
      form no longer holds: every attribute before it held its own. The
      writes made before it are kept. */
  lemma {:induction false} ScanAbortsAt(st: Session, attrs: seq<Attr>) returns (i: nat)
    requires DistinctKeys(attrs) && st.form.Some?
    requires ScanAttrs(st, attrs).out == Ok(Aborted)
    ensures i < |attrs| && attrs[i].expected.Some?
    ensures attrs[i].key in st.form.value.controls && st.form.value.controls[attrs[i].key] != attrs[i].expected.value
    ensures forall j :: 0 <= j < i && attrs[j].expected.Some? ==>
      attrs[j].key in st.form.value.controls && st.form.value.controls[attrs[j].key] == attrs[j].expected.value
    ensures ScanAttrs(st, attrs).st == ScanAttrs(st, attrs[..i]).st
    decreases |attrs|
  {
    var n := |attrs| - 1;
    var init := attrs[..n];
    var prev := ScanAttrs(st, init);
    assert DistinctKeys(init);
    assert forall j :: 0 <= j < n ==> init[j] == attrs[j];
    if prev.out == Ok(Aborted) {
      i := ScanAbortsAt(st, init);
      assert init[..i] == attrs[..i];
    } else {
      i := n;
      ScanThrough(st, init);
      NewPairsLast(st.form.value.controls, attrs);
    }
  }

  /** A saved release edit was made only from a form where every attribute
      with an expected value still held it and some attribute differed from
      its new value; the first submission carries every new value (but for
      the barcode confirmation itself, which is written last) and the barcode
      confirmation, the second the note. */
  lemma {:induction false} ReleaseInfoSaved(st: Session, server: Request -> Response, entityId: string, attrs: seq<Attr>, note: string, auto: bool)
    returns (loaded: Session, first: map<string, Control>, second: Request)
    requires DistinctKeys(attrs)
    requires ReleaseInfoOf(st, server, entityId, attrs, note, auto).out.Ok?
    requires ReleaseInfoOf(st, server, entityId, attrs, note, auto).out.value
    ensures loaded.form.Some? && Sent(st, loaded, [Get("/release/" + entityId + "/edit", map[])])
    ensures forall i :: 0 <= i < |attrs| && attrs[i].expected.Some? ==>
      attrs[i].key in loaded.form.value.controls && loaded.form.value.controls[attrs[i].key] == attrs[i].expected.value
    ensures AnyDiffers(loaded.form.value.controls, attrs)
    ensures forall i :: 0 <= i < |attrs| && attrs[i].key != "barcode_confirm" ==> attrs[i].key in first && first[attrs[i].key] == attrs[i].wanted
    ensures "barcode_confirm" in first && first["barcode_confirm"] == Choice(["1"])
    ensures Sent(loaded, ReleaseInfoOf(st, server, entityId, attrs, note, auto).st,
      [Submission(loaded.form.value.action, "step_editnote", first), second])
    ensures second.Submission? && second.button == "save" && "edit_note" in second.fields && second.fields["edit_note"] == Text(note)
  {
    var page := Get("/release/" + entityId + "/edit", map[]);
    var s := OpenEditForm(st, server, page);
    OpenEditFormSends(st, server, page);
    loaded := s.st;
    var sc := ScanAttrs(loaded, attrs);
    ScanThrough(loaded, attrs);
    var written := PutAll(loaded.form.value.controls, NewPairs(attrs));
    var action, fields := ConfirmSends(sc.st, server, note, auto);
    second := Submission(action, "save", fields);
    first := written["barcode_confirm" := Choice(["1"])];
    NewValuesWritten(loaded.form.value.controls, attrs);
  }

  /** Each attribute's new value is in the form after the scan's writes. */
  lemma NewValuesWritten(m: map<string, Control>, attrs: seq<Attr>)
    requires DistinctKeys(attrs)
    ensures forall i :: 0 <= i < |attrs| ==>
      attrs[i].key in PutAll(m, NewPairs(attrs)) && PutAll(m, NewPairs(attrs))[attrs[i].key] == attrs[i].wanted
  {
    forall i | 0 <= i < |attrs|
      ensures attrs[i].key in PutAll(m, NewPairs(attrs)) && PutAll(m, NewPairs(attrs))[attrs[i].key] == attrs[i].wanted
    {
      assert NewPairs(attrs)[i] == (attrs[i].key, attrs[i].wanted);
      PutAllLastWins(m, NewPairs(attrs), i);
    }
  }


  /** The scan gives the same result as soon as it has stopped: the later
      attributes are never looked at. */
  lemma {:induction false} ScanStops(st: Session, attrs: seq<Attr>, k: nat)
    requires k <= |attrs|
    requires !(ScanAttrs(st, attrs[..k]).out.Ok? && ScanAttrs(st, attrs[..k]).out.value.Going?)
    ensures ScanAttrs(st, attrs) == ScanAttrs(st, attrs[..k])
    decreases |attrs| - k
  {
    if k < |attrs| {
      assert attrs[..k + 1][..k] == attrs[..k];
      ScanStops(st, attrs, k + 1);
    } else {
      assert attrs[..k] == attrs;
    }
  }

  // ---- the client ---------------------------------------------------------------

  /** `MusicBrainzClient` after `login`: its browser, the user name and the
      editor id (`Null` when none was given). */
  class MusicBrainzClient {
    const b: Browser
    const username: string
    const editorId: Scalar

    constructor (b: Browser, username: string, editorId: Scalar)
      ensures this.b == b && this.username == username && this.editorId == editorId
    {
      this.b := b;
      this.username := username;
      this.editorId := editorId;
    }

    method EditsLeftToday(maxEdits: int, today: string) returns (r: Outcome<int>)
      modifies b
      ensures Step(b.State(), r) == QuotaQuery(old(b.State()), b.server, editorId, TodayQuery(username, editorId, today), maxEdits)
    {
      if editorId == Null {
        return Ok(0);
      }
      var o := b.Open(Get(SearchEdits, TodayQuery(username, editorId, today)));
      if o.Raised? {
        return Raised(o.error);
      }
      r := Ok(Remaining(maxEdits, b.response.body));
    }

    method EditsLeftGlobally(maxEdits: int) returns (r: Outcome<int>)
      modifies b
      ensures Step(b.State(), r) == QuotaQuery(old(b.State()), b.server, editorId, GlobalQuery(username, editorId), maxEdits)
    {
      if editorId == Null {
        return Ok(0);
      }
      var o := b.Open(Get(SearchEdits, GlobalQuery(username, editorId)));
      if o.Raised? {
        return Raised(o.error);
      }
      r := Ok(Remaining(maxEdits, b.response.body));
    }

    method EditsLeft(today: string) returns (r: Outcome<int>)
      modifies b
      ensures Step(b.State(), r) == EditsLeftOf(old(b.State()), b.server, username, editorId, today)
    {
      var leftToday := EditsLeftToday(TodayCap, today);
      if leftToday.Raised? {
        return leftToday;
      }
      var leftGlobally := EditsLeftGlobally(GlobalCap);
      if leftGlobally.Raised? {
        return leftGlobally;
      }
      r := Ok(if leftToday.value <= leftGlobally.value then leftToday.value else leftGlobally.value);
    }

    method ExtractMbid(entityType: string) returns (r: Outcome<string>)
      ensures r == ExtractedMbid(b.response.url, entityType)
    {
      match MbidOf(b.response.url, entityType) {
      case None => r := Raised(UnableToPostEdit);
      case Some(m) => r := Ok(m);
      }
    }

    method CheckResponse(doneMsg: Option<string>) returns (r: Outcome<bool>)
      ensures r == CheckPage(b.response.body, doneMsg)
    {
      var page := b.response.body;
      if !Contains(page, ThankYou) {
        if doneMsg.None? || doneMsg.value == "" || !Contains(page, doneMsg.value) {
          return Raised(UnableToPostEdit);
        }
        return Ok(false);
      }
      r := Ok(true);
    }

    method RelationshipAction(e: RelEdit) returns (r: Outcome<bool>)
      modifies b
      ensures Step(b.State(), r) == RelAction(old(b.State()), b.server, e)
    {
      if MissingId(e) {
        return Raised(MissingRelationshipId(e.action));
      }
      var o := b.Open(Post(RelationshipEditor, RelPayload(e)));
      if o.Raised? && b.response.status != 400 {
        return Raised(UnableToPostEdit);
      }
      r := ClassifyReply(b.response.json);
    }

    method AddUrl(entityType: string, entityId: Scalar, linkType: Scalar, url: Scalar, editNote: string, auto: bool)
      returns (r: Outcome<bool>)
      modifies b
      ensures Step(b.State(), r) == RelAction(old(b.State()), b.server, UrlEdit(entityType, entityId, linkType, url, editNote, auto))
    {
      r := RelationshipAction(UrlEdit(entityType, entityId, linkType, url, editNote, auto));
    }

    method AsAutoEditor(prefix: string, auto: bool) returns (r: Outcome<()>)
      modifies b
      ensures Step(b.State(), r) == AutoEditor(old(b.State()), prefix, auto)
    {
      r := b.Set(prefix + "make_votable", Choice(if auto then [] else ["1"]));
      if r.Raised? && r.error.ControlNotFound? {
        r := Ok(());
      }
    }

    /** `_edit_note_and_auto_editor_and_submit_and_check_response` with its
        default message. */
    method SubmitEdit(prefix: string, auto: bool, note: string) returns (r: Outcome<bool>)
      modifies b
      ensures Step(b.State(), r) == NoteAndSubmit(old(b.State()), b.server, prefix, auto, note)
    {
      var o := b.Set(prefix + "edit_note", Text(note));
      if o.Raised? {
        return Raised(o.error);
      }
      o := AsAutoEditor(prefix, auto);
      if o.Raised? {
        return Raised(o.error);
      }
      o := b.Submit("");
      if o.Raised? {
        return Raised(o.error);
      }
      r := CheckResponse(Some(AlreadyDone));
    }

    method UpdateEntityIfNotSet(update: set<string>, entity: map<string, Scalar>, entityType: string,
                                item: string, suffix: string, utf8ize: bool, inarray: bool)
      returns (r: Outcome<bool>)
      modifies b
      ensures Step(b.State(), r) == UpdateEntity(old(b.State()), update, entity, entityType, item, suffix, utf8ize, inarray)
    {
      if item in update {
        var key := "edit-" + entityType + "." + item + suffix;
        var live := b.Get(key);
        if live.Raised? {
          return Raised(live.error);
        }
        if live.value != (if inarray then Choice([""]) else Text("")) {
          return Ok(false);
        }
        if item !in entity {
          return Raised(KeyError(item));
        }
        if utf8ize && !entity[item].Str? {
          return Raised(AttributeError);
        }
        var val := ToStr(entity[item]);
        var o := b.Set(key, if inarray then Choice([val]) else Text(val));
        if o.Raised? {
          return Raised(o.error);
        }
      }
      r := Ok(true);
    }

    method UpdateArtistDateIfNotSet(update: set<string>, artist: map<string, Scalar>, itemPrefix: string)
      returns (r: Outcome<bool>)
      modifies b
      ensures Step(b.State(), r) == UpdateDate(old(b.State()), update, artist, itemPrefix)
    {
      var item := itemPrefix + "_date";
      if item in update {
        var prefix := "edit-artist.period." + item;
        var year := b.Get(prefix + ".year");
        if year.Raised? {
          return Raised(year.error);
        }
        if ControlTruthy(year.value) {
          return Ok(false);
        }
        if item + "_year" !in artist {
          return Raised(KeyError(item + "_year"));
        }
        var o := b.Set(prefix + ".year", Text(ToStr(artist[item + "_year"])));
        if o.Raised? {
          return Raised(o.error);
        }
        if item + "_month" !in artist {
          return Raised(KeyError(item + "_month"));
        }
        if Truthy(artist[item + "_month"]) {
          o := b.Set(prefix + ".month", Text(ToStr(artist[item + "_month"])));
          if o.Raised? {
            return Raised(o.error);
          }
          if item + "_day" !in artist {
            return Raised(KeyError(item + "_day"));
          }
          if Truthy(artist[item + "_day"]) {
            o := b.Set(prefix + ".day", Text(ToStr(artist[item + "_day"])));
            if o.Raised? {
              return Raised(o.error);
            }
          }
        }
      }
      r := Ok(true);
    }

    /** Open an edit page and select its edit form. */
    method OpenEdit(page: Request) returns (r: Outcome<()>)
      modifies b
      ensures Step(b.State(), r) == OpenEditForm(old(b.State()), b.server, page)
    {
      r := b.Open(page);
      if r.Ok? {
        r := b.SelectForm("/edit");
      }
    }

    method SetArtistType(entityId: string, typeId: Scalar, note: string, auto: bool) returns (r: Outcome<Option<bool>>)
      modifies b
      ensures Step(b.State(), r) == SetArtistTypeOf(old(b.State()), b.server, entityId, typeId, note, auto)
    {
      var o := OpenEdit(Get("/artist/" + entityId + "/edit", map[]));
      if o.Raised? {
        return Raised(o.error);
      }
      var live := b.Get("edit-artist.type_id");
      if live.Raised? {
        return Raised(live.error);
      }
      if live.value != Choice([""]) {
        return Ok(None);
      }
      o := b.Set("edit-artist.type_id", Choice([ToStr(typeId)]));
      if o.Raised? {
        return Raised(o.error);
      }
      var done := SubmitEdit("edit-artist.", auto, note);
      r := if done.Raised? then Raised(done.error) else Ok(Some(done.value));
    }

    method EditUrl(entityId: string, oldUrl: Scalar, newUrl: Scalar, note: string, auto: bool) returns (r: Outcome<Option<bool>>)
      modifies b
      ensures Step(b.State(), r) == EditUrlOf(old(b.State()), b.server, entityId, oldUrl, newUrl, note, auto)
    {
      var o := OpenEdit(Get("/url/" + entityId + "/edit", map[]));
      if o.Raised? {
        return Raised(o.error);
      }
      var live := b.Get("edit-url.url");
      if live.Raised? {
        return Raised(live.error);
      }
      if live.value != Text(ToStr(oldUrl)) {
        return Ok(None);
      }
      if live.value == Text(ToStr(newUrl)) {
        return Ok(None);
      }
      o := b.Set("edit-url.url", Text(ToStr(newUrl)));
      if o.Raised? {
        return Raised(o.error);
      }
      var done := SubmitEdit("edit-url.", auto, note);
      r := if done.Raised? then Raised(done.error) else Ok(Some(done.value));
    }

    /** The steps after a scan that changed something. */
    method ConfirmRelease(note: string, auto: bool) returns (r: Outcome<bool>)
      modifies b
      ensures Step(b.State(), r) == Confirm(old(b.State()), b.server, note, auto)
    {
      var o := b.Set("barcode_confirm", Choice(["1"]));
      if o.Raised? {
        return Raised(o.error);
      }
      o := b.Submit("step_editnote");
      if o.Raised? {
        return Raised(o.error);
      }
      o := b.SelectForm("/edit");
      if o.Raised? {
        return Raised(o.error);
      }
      o := b.Set("edit_note", Text(note));
      if o.Raised? {
        return if o.error.ControlNotFound? then Raised(UnableToPostEdit) else Raised(o.error);
      }
      o := AsAutoEditor("", auto);
      if o.Raised? {
        return Raised(o.error);
      }
      o := b.Submit("save");
      if o.Raised? {
        return Raised(o.error);
      }
      r := if Contains(b.response.body, ReleaseSaved) then Ok(true) else Raised(UnableToPostEdit);
    }

    method EditReleaseInformation(entityId: string, attrs: seq<Attr>, note: string, auto: bool) returns (r: Outcome<bool>)
      modifies b
      ensures Step(b.State(), r) == ReleaseInfoOf(old(b.State()), b.server, entityId, attrs, note, auto)
    {
      var o := OpenEdit(Get("/release/" + entityId + "/edit", map[]));
      if o.Raised? {
        return Raised(o.error);
      }
      ghost var loaded := b.State();
      var changed := false;
      var i := 0;
      while i < |attrs|
        invariant 0 <= i <= |attrs|
        invariant ScanAttrs(loaded, attrs[..i]) == Step(b.State(), Ok(Going(changed)))
      {
        var a := attrs[i];
        assert attrs[..i + 1][..i] == attrs[..i];
        var live := b.Get(a.key);
        if live.Raised? {
          ScanStops(loaded, attrs, i + 1);
          return Raised(live.error);
        }
        if a.expected.Some? && live.value != a.expected.value {
          ScanStops(loaded, attrs, i + 1);
          return Ok(false);
        }
        if live.value != a.wanted {
          changed := true;
          var w := b.Set(a.key, a.wanted);
          if w.Raised? {
            ScanStops(loaded, attrs, i + 1);
            return Raised(w.error);
          }
        }
        i := i + 1;
      }
      assert attrs[..i] == attrs;
      if !changed {
        return Ok(false);
      }
      r := ConfirmRelease(note, auto);
    }
  }
}
