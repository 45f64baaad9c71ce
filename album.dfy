/** `format_time` and `album_to_form`: the flat form posted to the release
    editor for a new release, with a `mediums.M.track.T.*` key per track field
    and the release date split into year, month and day fields. */
module Album {
  import opened Strings
  import opened Values

  // ---- format_time ----------------------------------------------------------------

  /** `"%02d" % n` for 0 <= n < 100. */
  function TwoDigits(n: nat): (r: string)
    requires n < 100
    ensures |r| == 2 && AllDigits(r)
  {
    [DigitChar(n / 10), DigitChar(n % 10)]
  }

  lemma TwoDigitsValue(n: nat)
    requires n < 100
    ensures DigitsValue(TwoDigits(n)) == n
  {
    var ss := TwoDigits(n);
    assert ss[..1] == [DigitChar(n / 10)];
    assert ss[..1][..0] == [];
    assert DigitsValue(ss[..1]) == n / 10;
  }

  /** format_time(secs): `"%0d:%02d" % (secs // 60, secs % 60)`. Python's `//`
      and `%` floor, which for the divisor 60 agrees with Dafny's Euclidean
      operators, negative lengths included. */
  function FormatTime(secs: int): string {
    IntStr(secs / 60) + ":" + TwoDigits(secs % 60)
  }

  /** Reads an `M:SS` track length back: minutes in decimal, then exactly two
      digits of seconds below 60. */
  function ParseTime(s: string): Option<int> {
    var parts := Split(s, ':');
    if |parts| != 2 then None
    else
      var (m, ss) := (parts[0], parts[1]);
      if m == [] || !AllDigits(m) || |ss| != 2 || !AllDigits(ss) || DigitsValue(ss) >= 60 then None
      else Some(DigitsValue(m) * 60 + DigitsValue(ss))
  }

  /** A non-negative length is rendered as minutes, ':' and two-digit seconds
      below 60, and reading it back gives the length: M * 60 + SS == secs. */
  lemma FormatTimeRoundTrip(secs: nat)
    ensures var r := FormatTime(secs);
      r == NatStr(secs / 60) + ":" + TwoDigits(secs % 60)
      && ParseTime(r) == Some(secs)
  {
    var m, ss := NatStr(secs / 60), TwoDigits(secs % 60);
    assert Free(m, ':') && Free(ss, ':');
    JoinSplit([m, ss], ':');
    assert Join([m, ss], ':') == m + ":" + ss;
    DigitsValueOfNatStr(secs / 60);
    TwoDigitsValue(secs % 60);
  }

  /** Distinct non-negative lengths are rendered differently. */
  lemma FormatTimeInjective(a: nat, b: nat)
    requires FormatTime(a) == FormatTime(b)
    ensures a == b
  {
    FormatTimeRoundTrip(a);
    FormatTimeRoundTrip(b);
  }

  /** As in Python, a negative length floors: -1 is rendered "-1:59". */
  lemma FormatTimeNegative()
    ensures FormatTime(-1) == "-1:59"
  {
    assert -1 / 60 == -1 && -1 % 60 == 59;
    assert NatStr(1) == "1";
    assert TwoDigits(59) == "59";
  }

  // ---- album_to_form -------------------------------------------------------------

  datatype Track = Track(position: Scalar, title: Scalar, length: int)

  datatype Medium = Medium(format: Scalar, position: Scalar, tracks: seq<Track>)

  /** The album dict: `artist`, `artist_mbid`, `title`, `date`, `label`,
      `barcode`, `mediums`, `_id`. A key read with `.get` and absent is Null. */
  datatype AlbumRecord = AlbumRecord(
    artist: Scalar,
    artistMbid: Scalar,
    title: Scalar,
    date: Scalar,
    labelName: Scalar,
    barcode: Scalar,
    mediums: seq<Medium>,
    id: string)

  type Form = map<string, Scalar>

  const CdBabyPrefix := "http://www.cdbaby.com/cd/"

  /** `"mediums.%d.<field>" % m` */
  function MediumKey(m: nat, field: string): string {
    "mediums." + NatStr(m) + "." + field
  }

  /** `"mediums.%d.track.%d.<field>" % (m, t)` */
  function TrackKey(m: nat, t: nat, field: string): string {
    MediumKey(m, "track." + NatStr(t) + "." + field)
  }

  /** The date fields written into `form`: the `-`-separated parts of the
      date, as many as there are up to three. */
  function WithDate(form: Form, date: string): Form {
    var parts := Split(date, '-');
    var year := form["date.year" := Str(parts[0])];
    if |parts| > 1 then
      var month := year["date.month" := Str(parts[1])];
      if |parts| > 2 then month["date.day" := Str(parts[2])] else month
    else year
  }

  /** The fields set before the media, in the order the source sets them. */
  function HeaderForm(a: AlbumRecord): Form
    requires Truthy(a.date) ==> a.date.Str?
  {
    var f0 := map["artist_credit.names.0.artist.name" := a.artist, "artist_credit.names.0.name" := a.artist];
    var f1 := if Truthy(a.artistMbid) then f0["artist_credit.names.0.mbid" := a.artistMbid] else f0;
    var f2 := f1["name" := a.title];
    var f3 := if Truthy(a.date) then WithDate(f2, a.date.s) else f2;
    var f4 := if Truthy(a.labelName) then f3["labels.0.name" := a.labelName] else f3;
    if Truthy(a.barcode) then f4["barcode" := a.barcode] else f4
  }

  /** `form` after the track loop has written tracks `ts` of medium `m`. */
  function WithTracks(form: Form, m: nat, ts: seq<Track>): Form
    decreases |ts|
  {
    if ts == [] then form
    else
      var t := |ts| - 1;
      WithTracks(form, m, ts[..t])
        [TrackKey(m, t, "position") := ts[t].position]
        [TrackKey(m, t, "name") := ts[t].title]
        [TrackKey(m, t, "length") := Str(FormatTime(ts[t].length))]
  }

  lemma WithTracksStep(form: Form, m: nat, ts: seq<Track>, t: nat)
    requires t < |ts|
    ensures WithTracks(form, m, ts[..t + 1]) ==
      WithTracks(form, m, ts[..t])
        [TrackKey(m, t, "position") := ts[t].position]
        [TrackKey(m, t, "name") := ts[t].title]
        [TrackKey(m, t, "length") := Str(FormatTime(ts[t].length))]
  {
    assert ts[..t + 1][..t] == ts[..t];
  }

  /** `form` after medium `md`, numbered `m`, has been written. */
  function WithMedium(form: Form, m: nat, md: Medium): Form {
    WithTracks(form[MediumKey(m, "format") := md.format][MediumKey(m, "position") := md.position], m, md.tracks)
  }

  /** `form` after the medium loop has written media `ms`. */
  function WithMedia(form: Form, ms: seq<Medium>): Form
    decreases |ms|
  {
    if ms == [] then form
    else WithMedium(WithMedia(form, ms[..|ms| - 1]), |ms| - 1, ms[|ms| - 1])
  }

  lemma WithMediaStep(form: Form, ms: seq<Medium>, m: nat)
    requires m < |ms|
    ensures WithMedia(form, ms[..m + 1]) == WithMedium(WithMedia(form, ms[..m]), m, ms[m])
  {
    assert ms[..m + 1][..m] == ms[..m];
  }

  /** What album_to_form computes: the form, or the exception it raises
      (`.split` on a date that is not a str, or an `_id` without ':'). */
  function AlbumForm(a: AlbumRecord): Outcome<Form> {
    if Truthy(a.date) && !a.date.Str? then Raised(AttributeError)
    else
      var idParts := Split(a.id, ':');
      if |idParts| < 2 then Raised(IndexError)
      else Ok(WithMedia(HeaderForm(a), a.mediums)["edit_note" := Str(CdBabyPrefix + idParts[1])])
  }

  /** album_to_form(album), filling the dict in place medium by medium and
      track by track. */
  method AlbumToForm(a: AlbumRecord) returns (r: Outcome<Form>)
    ensures r == AlbumForm(a)
  {
    var form: Form := map[];
    form := form["artist_credit.names.0.artist.name" := a.artist];
    form := form["artist_credit.names.0.name" := a.artist];
    if Truthy(a.artistMbid) {
      form := form["artist_credit.names.0.mbid" := a.artistMbid];
    }
    form := form["name" := a.title];
    if Truthy(a.date) {
      if !a.date.Str? {
        return Raised(AttributeError);
      }
      var dateParts := Split(a.date.s, '-');
      if |dateParts| > 0 {
        form := form["date.year" := Str(dateParts[0])];
        if |dateParts| > 1 {
          form := form["date.month" := Str(dateParts[1])];
          if |dateParts| > 2 {
            form := form["date.day" := Str(dateParts[2])];
          }
        }
      }
    }
    if Truthy(a.labelName) {
      form := form["labels.0.name" := a.labelName];
    }
    if Truthy(a.barcode) {
      form := form["barcode" := a.barcode];
    }
    assert form == HeaderForm(a);
    ghost var header := form;
    var mi := 0;
    while mi < |a.mediums|
      invariant 0 <= mi <= |a.mediums|
      invariant form == WithMedia(header, a.mediums[..mi])
    {
      var md := a.mediums[mi];
      ghost var before := form;
      form := form[MediumKey(mi, "format") := md.format];
      form := form[MediumKey(mi, "position") := md.position];
      ghost var started := form;
      var ti := 0;
      while ti < |md.tracks|
        invariant 0 <= ti <= |md.tracks|
        invariant form == WithTracks(started, mi, md.tracks[..ti])
      {
        var tr := md.tracks[ti];
        WithTracksStep(started, mi, md.tracks, ti);
        form := form[TrackKey(mi, ti, "position") := tr.position];
        form := form[TrackKey(mi, ti, "name") := tr.title];
        form := form[TrackKey(mi, ti, "length") := Str(FormatTime(tr.length))];
        ti := ti + 1;
      }
      assert md.tracks[..ti] == md.tracks;
      assert form == WithMedium(before, mi, md);
      WithMediaStep(header, a.mediums, mi);
      mi := mi + 1;
    }
    assert a.mediums[..mi] == a.mediums;
    var idParts := Split(a.id, ':');
    if |idParts| < 2 {
      return Raised(IndexError);
    }
    form := form["edit_note" := Str(CdBabyPrefix + idParts[1])];
    r := Ok(form);
  }

  // ---- what the form holds -------------------------------------------------------

  /** Medium keys never collide: the medium number and the field can be read
      back from the key. */
  lemma MediumKeyInjective(m: nat, x: string, n: nat, y: string)
    requires MediumKey(m, x) == MediumKey(n, y)
    ensures m == n && x == y
  {
    var p := "mediums.";
    assert (p + NatStr(m) + "." + x)[|p|..] == NatStr(m) + "." + x;
    assert (p + NatStr(n) + "." + y)[|p|..] == NatStr(n) + "." + y;
    NatStrDotSplit(m, n, x, y);
  }

  /** Track keys never collide: medium, track and field are all recoverable. */
  lemma TrackKeyInjective(m: nat, t: nat, f: string, n: nat, u: nat, g: string)
    requires TrackKey(m, t, f) == TrackKey(n, u, g)
    ensures m == n && t == u && f == g
  {
    var p := "track.";
    MediumKeyInjective(m, p + NatStr(t) + "." + f, n, p + NatStr(u) + "." + g);
    assert (p + NatStr(t) + "." + f)[|p|..] == NatStr(t) + "." + f;
    assert (p + NatStr(u) + "." + g)[|p|..] == NatStr(u) + "." + g;
    NatStrDotSplit(t, u, f, g);
  }

  /** Keys of different media are apart, whatever their fields. */
  lemma MediaApart(m: nat, x: string, n: nat)
    requires m != n
    ensures forall y :: MediumKey(m, x) != MediumKey(n, y)
  {
    forall y ensures MediumKey(m, x) != MediumKey(n, y) {
      if MediumKey(m, x) == MediumKey(n, y) {
        MediumKeyInjective(m, x, n, y);
        assert false;
      }
    }
  }

  lemma TrackKeysApart(m: nat, t: nat, f: string, u: nat, g: string)
    requires t != u || f != g
    ensures TrackKey(m, t, f) != TrackKey(m, u, g)
  {
    if TrackKey(m, t, f) == TrackKey(m, u, g) {
      TrackKeyInjective(m, t, f, m, u, g);
      assert false;
    }
  }

  /** The three keys of track `t` are apart from the three keys of track `u`. */
  lemma TracksApart(m: nat, t: nat, u: nat)
    requires t != u
    ensures TrackKey(m, t, "position") != TrackKey(m, u, "position")
    ensures TrackKey(m, t, "position") != TrackKey(m, u, "name")
    ensures TrackKey(m, t, "position") != TrackKey(m, u, "length")
    ensures TrackKey(m, t, "name") != TrackKey(m, u, "position")
    ensures TrackKey(m, t, "name") != TrackKey(m, u, "name")
    ensures TrackKey(m, t, "name") != TrackKey(m, u, "length")
    ensures TrackKey(m, t, "length") != TrackKey(m, u, "position")
    ensures TrackKey(m, t, "length") != TrackKey(m, u, "name")
    ensures TrackKey(m, t, "length") != TrackKey(m, u, "length")
  {
    var fs := ["position", "name", "length"];
    forall i, j | 0 <= i < 3 && 0 <= j < 3 ensures TrackKey(m, t, fs[i]) != TrackKey(m, u, fs[j]) {
      TrackKeysApart(m, t, fs[i], u, fs[j]);
    }
    assert fs[0] == "position" && fs[1] == "name" && fs[2] == "length";
  }

  lemma TrackKeyHead(t: nat, f: string)
    ensures ("track." + NatStr(t) + "." + f)[0] == 't'
  {
  }

  /** A medium's own fields are not track fields. */
  lemma MediumFieldNotTrack(m: nat, x: string, n: nat, t: nat, f: string)
    requires x == "format" || x == "position"
    ensures MediumKey(m, x) != TrackKey(n, t, f)
  {
    TrackKeyHead(t, f);
    if MediumKey(m, x) == TrackKey(n, t, f) {
      MediumKeyInjective(m, x, n, "track." + NatStr(t) + "." + f);
      assert false;
    }
  }

  lemma MediumKeyPrefix(m: nat, x: string)
    ensures StartsWith(MediumKey(m, x), "mediums.")
  {
    assert MediumKey(m, x)[..8] == "mediums.";
  }

  /** The track loop leaves alone every key it does not write. */
  lemma {:induction false} WithTracksKeep(form: Form, m: nat, ts: seq<Track>, k: string)
    requires forall t, f :: 0 <= t < |ts| ==> k != TrackKey(m, t, f)
    ensures (k in WithTracks(form, m, ts)) == (k in form)
    ensures k in form ==> WithTracks(form, m, ts)[k] == form[k]
    decreases |ts|
  {
    if ts != [] {
      WithTracksKeep(form, m, ts[..|ts| - 1], k);
    }
  }

  /** After the track loop, track `t` has its position, its title under
      `name`, and its length rendered by format_time. */
  lemma {:induction false} WithTracksAt(form: Form, m: nat, ts: seq<Track>, t: nat)
    requires t < |ts|
    ensures var r := WithTracks(form, m, ts);
      TrackKey(m, t, "position") in r && r[TrackKey(m, t, "position")] == ts[t].position
      && TrackKey(m, t, "name") in r && r[TrackKey(m, t, "name")] == ts[t].title
      && TrackKey(m, t, "length") in r && r[TrackKey(m, t, "length")] == Str(FormatTime(ts[t].length))
    decreases |ts|
  {
    var last := |ts| - 1;
    if t < last {
      TracksApart(m, t, last);
      WithTracksAt(form, m, ts[..last], t);
      assert ts[..last][t] == ts[t];
    } else {
      TrackKeysApart(m, t, "position", t, "name");
      TrackKeysApart(m, t, "position", t, "length");
      TrackKeysApart(m, t, "name", t, "length");
    }
  }

  /** Writing a medium leaves alone every key outside that medium. */
  lemma WithMediumKeep(form: Form, n: nat, md: Medium, k: string)
    requires forall y :: k != MediumKey(n, y)
    ensures (k in WithMedium(form, n, md)) == (k in form)
    ensures k in form ==> WithMedium(form, n, md)[k] == form[k]
  {
    var f2 := form[MediumKey(n, "format") := md.format][MediumKey(n, "position") := md.position];
    WithTracksKeep(f2, n, md.tracks, k);
  }

  lemma OtherMediumKeepsTrack(form: Form, n: nat, md: Medium, m: nat, t: nat, f: string)
    requires m != n
    ensures (TrackKey(m, t, f) in WithMedium(form, n, md)) == (TrackKey(m, t, f) in form)
    ensures TrackKey(m, t, f) in form ==> WithMedium(form, n, md)[TrackKey(m, t, f)] == form[TrackKey(m, t, f)]
  {
    MediaApart(m, "track." + NatStr(t) + "." + f, n);
    WithMediumKeep(form, n, md, TrackKey(m, t, f));
  }

  /** The medium loop leaves alone every key that is not a `mediums.` key. */
  lemma {:induction false} WithMediaKeep(form: Form, ms: seq<Medium>, k: string)
    requires !StartsWith(k, "mediums.")
    ensures (k in WithMedia(form, ms)) == (k in form)
    ensures k in form ==> WithMedia(form, ms)[k] == form[k]
    decreases |ms|
  {
    if ms != [] {
      var last := |ms| - 1;
      WithMediaKeep(form, ms[..last], k);
      forall y ensures k != MediumKey(last, y) {
        MediumKeyPrefix(last, y);
      }
      WithMediumKeep(WithMedia(form, ms[..last]), last, ms[last], k);
    }
  }

  /** After the medium loop, medium `m` has its format and position. */
  lemma {:induction false} WithMediaMediumAt(form: Form, ms: seq<Medium>, m: nat)
    requires m < |ms|
    ensures var r := WithMedia(form, ms);
      MediumKey(m, "format") in r && r[MediumKey(m, "format")] == ms[m].format
      && MediumKey(m, "position") in r && r[MediumKey(m, "position")] == ms[m].position
    decreases |ms|
  {
    var last := |ms| - 1;
    var prev := WithMedia(form, ms[..last]);
    if m < last {
      WithMediaMediumAt(form, ms[..last], m);
      assert ms[..last][m] == ms[m];
      MediaApart(m, "format", last);
      MediaApart(m, "position", last);
      WithMediumKeep(prev, last, ms[last], MediumKey(m, "format"));
      WithMediumKeep(prev, last, ms[last], MediumKey(m, "position"));
    } else {
      var md := ms[m];
      var f2 := prev[MediumKey(m, "format") := md.format][MediumKey(m, "position") := md.position];
      assert MediumKey(m, "format") != MediumKey(m, "position") by {
        if MediumKey(m, "format") == MediumKey(m, "position") {
          MediumKeyInjective(m, "format", m, "position");
          assert false;
        }
      }
      forall t, f ensures MediumKey(m, "format") != TrackKey(m, t, f) && MediumKey(m, "position") != TrackKey(m, t, f) {
        MediumFieldNotTrack(m, "format", m, t, f);
        MediumFieldNotTrack(m, "position", m, t, f);
      }
      WithTracksKeep(f2, m, md.tracks, MediumKey(m, "format"));
      WithTracksKeep(f2, m, md.tracks, MediumKey(m, "position"));
    }
  }

  /** After the medium loop, track `t` of medium `m` has its three fields. */
  lemma {:induction false} WithMediaTrackAt(form: Form, ms: seq<Medium>, m: nat, t: nat)
    requires m < |ms| && t < |ms[m].tracks|
    ensures var r := WithMedia(form, ms);
      var tr := ms[m].tracks[t];
      TrackKey(m, t, "position") in r && r[TrackKey(m, t, "position")] == tr.position
      && TrackKey(m, t, "name") in r && r[TrackKey(m, t, "name")] == tr.title
      && TrackKey(m, t, "length") in r && r[TrackKey(m, t, "length")] == Str(FormatTime(tr.length))
    decreases |ms|
  {
    var last := |ms| - 1;
    var prev := WithMedia(form, ms[..last]);
    if m < last {
      WithMediaTrackAt(form, ms[..last], m, t);
      assert ms[..last][m] == ms[m];
      OtherMediumKeepsTrack(prev, last, ms[last], m, t, "position");
      OtherMediumKeepsTrack(prev, last, ms[last], m, t, "name");
      OtherMediumKeepsTrack(prev, last, ms[last], m, t, "length");
    } else {
      var md := ms[m];
      var f2 := prev[MediumKey(m, "format") := md.format][MediumKey(m, "position") := md.position];
      WithTracksAt(f2, m, md.tracks, t);
    }
  }

  /** The keys the medium loop writes for media `ms`: medium `m`'s format
      and position, and the position, name and length of its track `t`. */
  predicate IsMediaKey(ms: seq<Medium>, k: string, m: nat, t: nat) {
    m < |ms|
    && (k == MediumKey(m, "format") || k == MediumKey(m, "position")
      || (t < |ms[m].tracks|
        && (k == TrackKey(m, t, "position") || k == TrackKey(m, t, "name") || k == TrackKey(m, t, "length"))))
  }

  /** The track loop adds only the three keys of each of its tracks; `t` is
      the track a new key belongs to. */
  lemma {:induction false} WithTracksNewKeys(form: Form, m: nat, ts: seq<Track>, k: string) returns (t: nat)
    requires k in WithTracks(form, m, ts) && k !in form
    ensures t < |ts|
    ensures k == TrackKey(m, t, "position") || k == TrackKey(m, t, "name") || k == TrackKey(m, t, "length")
    decreases |ts|
  {
    var last := |ts| - 1;
    if k == TrackKey(m, last, "position") || k == TrackKey(m, last, "name") || k == TrackKey(m, last, "length") {
      t := last;
    } else {
      t := WithTracksNewKeys(form, m, ts[..last], k);
    }
  }

  /** The medium loop adds only `mediums.` keys, and each of them is a
      medium's format or position or a track's position, name or length;
      `m` and `t` name the medium and the track. */
  lemma {:induction false} WithMediaNewKeys(form: Form, ms: seq<Medium>, k: string) returns (m: nat, t: nat)
    requires k in WithMedia(form, ms) && k !in form
    ensures StartsWith(k, "mediums.")
    ensures IsMediaKey(ms, k, m, t)
    decreases |ms|
  {
    var last := |ms| - 1;
    var prev := WithMedia(form, ms[..last]);
    if k in prev {
      m, t := WithMediaNewKeys(form, ms[..last], k);
      assert ms[..last][m] == ms[m];
    } else {
      m, t := last, 0;
      var md := ms[last];
      var f2 := prev[MediumKey(m, "format") := md.format][MediumKey(m, "position") := md.position];
      if k !in f2 {
        t := WithTracksNewKeys(f2, m, md.tracks, k);
        MediumKeyPrefix(m, "track." + NatStr(t) + "." + "position");
        MediumKeyPrefix(m, "track." + NatStr(t) + "." + "name");
        MediumKeyPrefix(m, "track." + NatStr(t) + "." + "length");
      } else {
        MediumKeyPrefix(m, "format");
        MediumKeyPrefix(m, "position");
      }
    }
  }

  /** The names of the fields album_to_form may set outside the media. */
  const HeaderKeys: set<string> := {
    "artist_credit.names.0.artist.name", "artist_credit.names.0.name",
    "artist_credit.names.0.mbid", "name", "date.year", "date.month", "date.day",
    "labels.0.name", "barcode", "edit_note"}

  /** A key whose first letter is not 'm' is not a `mediums.` key; none of
      HeaderKeys is. */
  lemma NotMediaKey(k: string)
    requires k != [] && k[0] != 'm'
    ensures !StartsWith(k, "mediums.")
  {
  }

  /** album_to_form raises AttributeError exactly for a truthy date that is
      not a str, IndexError exactly for an `_id` without ':', and returns a
      form otherwise. */
  lemma AlbumFormRaises(a: AlbumRecord)
    ensures AlbumForm(a) == Raised(AttributeError) <==> Truthy(a.date) && !a.date.Str?
    ensures AlbumForm(a) == Raised(IndexError) <==> (Truthy(a.date) ==> a.date.Str?) && Free(a.id, ':')
    ensures AlbumForm(a).Ok? <==> (Truthy(a.date) ==> a.date.Str?) && !Free(a.id, ':')
  {
    var parts := Split(a.id, ':');
    if Free(a.id, ':') {
      SplitFree(a.id, ':');
    } else {
      SplitJoin(a.id, ':');
      SplitPartsFree(a.id, ':');
    }
  }

  /** Every field of the form is one of the fields named in HeaderKeys or a
      `mediums.` field, and a `mediums.` field is the format or position of
      a medium `m` of the album or the position, name or length of a track
      `t` of that medium: nothing else is written under `mediums.`. */
  lemma AlbumFormKeys(a: AlbumRecord, k: string) returns (m: nat, t: nat)
    requires AlbumForm(a).Ok? && k in AlbumForm(a).value
    ensures k in HeaderKeys || StartsWith(k, "mediums.")
    ensures StartsWith(k, "mediums.") ==> IsMediaKey(a.mediums, k, m, t)
  {
    m, t := 0, 0;
    var h := HeaderForm(a);
    if k in h || k == "edit_note" {
      HeaderKeysNotMedia(a, k);
    } else {
      assert k in WithMedia(h, a.mediums);
      m, t := WithMediaNewKeys(h, a.mediums, k);
    }
  }

  /** The fields set outside the media are named in HeaderKeys, and none of
      them is a `mediums.` field. */
  lemma HeaderKeysNotMedia(a: AlbumRecord, k: string)
    requires Truthy(a.date) ==> a.date.Str?
    requires k in HeaderForm(a) || k == "edit_note"
    ensures k in HeaderKeys && !StartsWith(k, "mediums.")
  {
    assert k in HeaderKeys;
    assert k != [] && k[0] != 'm';
    NotMediaKey(k);
  }

  /** Each track of each medium is in the form: position, title as `name`,
      and the length rendered by format_time. */
  lemma AlbumFormTrack(a: AlbumRecord, m: nat, t: nat)
    requires AlbumForm(a).Ok?
    requires m < |a.mediums| && t < |a.mediums[m].tracks|
    ensures var f := AlbumForm(a).value;
      var tr := a.mediums[m].tracks[t];
      TrackKey(m, t, "position") in f && f[TrackKey(m, t, "position")] == tr.position
      && TrackKey(m, t, "name") in f && f[TrackKey(m, t, "name")] == tr.title
      && TrackKey(m, t, "length") in f && f[TrackKey(m, t, "length")] == Str(FormatTime(tr.length))
  {
    WithMediaTrackAt(HeaderForm(a), a.mediums, m, t);
  }

  /** Each medium's format and position are in the form. */
  lemma AlbumFormMedium(a: AlbumRecord, m: nat)
    requires AlbumForm(a).Ok? && m < |a.mediums|
    ensures var f := AlbumForm(a).value;
      MediumKey(m, "format") in f && f[MediumKey(m, "format")] == a.mediums[m].format
      && MediumKey(m, "position") in f && f[MediumKey(m, "position")] == a.mediums[m].position
  {
    WithMediaMediumAt(HeaderForm(a), a.mediums, m);
  }

  /** The header fields, as the form is built before the media are added. */
  lemma HeaderFormFields(a: AlbumRecord)
    requires Truthy(a.date) ==> a.date.Str?
    ensures var h := HeaderForm(a);
      "artist_credit.names.0.artist.name" in h && h["artist_credit.names.0.artist.name"] == a.artist
      && "artist_credit.names.0.name" in h && h["artist_credit.names.0.name"] == a.artist
      && ("artist_credit.names.0.mbid" in h <==> Truthy(a.artistMbid))
      && (Truthy(a.artistMbid) ==> h["artist_credit.names.0.mbid"] == a.artistMbid)
      && "name" in h && h["name"] == a.title
      && ("labels.0.name" in h <==> Truthy(a.labelName))
      && (Truthy(a.labelName) ==> h["labels.0.name"] == a.labelName)
      && ("barcode" in h <==> Truthy(a.barcode))
      && (Truthy(a.barcode) ==> h["barcode"] == a.barcode)
  {
  }

  /** The fields outside the media: the artist under both credit names, the
      MBID, label and barcode exactly when truthy, the title as `name`, and
      an edit note pointing at the CD Baby page named after the `_id`'s
      second ':'-separated part. */
  lemma AlbumFormHeader(a: AlbumRecord)
    requires AlbumForm(a).Ok?
    ensures var f := AlbumForm(a).value;
      "artist_credit.names.0.artist.name" in f && f["artist_credit.names.0.artist.name"] == a.artist
      && "artist_credit.names.0.name" in f && f["artist_credit.names.0.name"] == a.artist
      && ("artist_credit.names.0.mbid" in f <==> Truthy(a.artistMbid))
      && (Truthy(a.artistMbid) ==> f["artist_credit.names.0.mbid"] == a.artistMbid)
      && "name" in f && f["name"] == a.title
      && ("labels.0.name" in f <==> Truthy(a.labelName))
      && (Truthy(a.labelName) ==> f["labels.0.name"] == a.labelName)
      && ("barcode" in f <==> Truthy(a.barcode))
      && (Truthy(a.barcode) ==> f["barcode"] == a.barcode)
      && "edit_note" in f && f["edit_note"] == Str(CdBabyPrefix + Split(a.id, ':')[1])
  {
    var h := HeaderForm(a);
    HeaderFormFields(a);
    var keys := ["artist_credit.names.0.artist.name", "artist_credit.names.0.name",
      "artist_credit.names.0.mbid", "name", "labels.0.name", "barcode"];
    forall i | 0 <= i < |keys|
      ensures (keys[i] in WithMedia(h, a.mediums)) == (keys[i] in h)
      ensures keys[i] in h ==> WithMedia(h, a.mediums)[keys[i]] == h[keys[i]]
    {
      NotMediaKey(keys[i]);
      WithMediaKeep(h, a.mediums, keys[i]);
    }
    assert keys[0] == "artist_credit.names.0.artist.name" && keys[1] == "artist_credit.names.0.name";
    assert keys[2] == "artist_credit.names.0.mbid" && keys[3] == "name";
    assert keys[4] == "labels.0.name" && keys[5] == "barcode";
  }

  /** The date fields of the header, before the media are written. */
  lemma HeaderFormDate(a: AlbumRecord)
    requires Truthy(a.date) ==> a.date.Str?
    ensures var h := HeaderForm(a);
      ("date.year" in h <==> Truthy(a.date))
      && (Truthy(a.date) ==>
        var parts := Split(a.date.s, '-');
        h["date.year"] == Str(parts[0])
        && ("date.month" in h <==> |parts| > 1)
        && (|parts| > 1 ==> h["date.month"] == Str(parts[1]))
        && ("date.day" in h <==> |parts| > 2)
        && (|parts| > 2 ==> h["date.day"] == Str(parts[2])))
  {
  }

  /** The date, when truthy, is written as its `-`-separated parts: year
      always, month when there is a second part, day when there is a third. */
  lemma AlbumFormDate(a: AlbumRecord)
    requires AlbumForm(a).Ok?
    ensures var f := AlbumForm(a).value;
      ("date.year" in f <==> Truthy(a.date))
      && (Truthy(a.date) ==>
        var parts := Split(a.date.s, '-');
        f["date.year"] == Str(parts[0])
        && ("date.month" in f <==> |parts| > 1)
        && (|parts| > 1 ==> f["date.month"] == Str(parts[1]))
        && ("date.day" in f <==> |parts| > 2)
        && (|parts| > 2 ==> f["date.day"] == Str(parts[2])))
  {
    var h := HeaderForm(a);
    HeaderFormDate(a);
    var keys := ["date.year", "date.month", "date.day"];
    forall i | 0 <= i < |keys|
      ensures (keys[i] in WithMedia(h, a.mediums)) == (keys[i] in h)
      ensures keys[i] in h ==> WithMedia(h, a.mediums)[keys[i]] == h[keys[i]]
    {
      NotMediaKey(keys[i]);
      WithMediaKeep(h, a.mediums, keys[i]);
    }
    assert keys[0] == "date.year" && keys[1] == "date.month" && keys[2] == "date.day";
  }

  /** A `YYYY-MM-DD` date (no '-' inside a part) comes back as exactly its
      year, month and day. */
  lemma AlbumFormFullDate(a: AlbumRecord, y: string, mo: string, d: string)
    requires AlbumForm(a).Ok?
    requires Free(y, '-') && Free(mo, '-') && Free(d, '-')
    requires a.date == Str(y + "-" + mo + "-" + d)
    ensures var f := AlbumForm(a).value;
      "date.year" in f && f["date.year"] == Str(y)
      && "date.month" in f && f["date.month"] == Str(mo)
      && "date.day" in f && f["date.day"] == Str(d)
  {
    var parts := [y, mo, d];
    forall k | 0 <= k < 3 ensures Free(parts[k], '-') {
    }
    JoinSplit(parts, '-');
    assert parts[1..] == [mo, d] && [mo, d][1..] == [d];
    assert Join([mo, d], '-') == mo + "-" + d;
    assert Join(parts, '-') == y + "-" + (mo + "-" + d) == a.date.s;
    assert Split(a.date.s, '-') == parts;
    assert Truthy(a.date);
    AlbumFormDate(a);
  }

  /** A CD Baby id such as "cdbaby:someband" yields the note
      "http://www.cdbaby.com/cd/someband". */
  lemma AlbumFormEditNoteExample(a: AlbumRecord)
    requires a.id == "cdbaby:someband" && !Truthy(a.date)
    ensures AlbumForm(a).Ok?
    ensures AlbumForm(a).value["edit_note"] == Str("http://www.cdbaby.com/cd/someband")
  {
    JoinSplit(["cdbaby", "someband"], ':');
    assert Join(["cdbaby", "someband"], ':') == a.id;
  }
}
