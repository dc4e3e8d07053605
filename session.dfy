/**
  The player's session state and its transitions, as values: what each event
  handler of `QuranAudioPlayer` (src/app/page.js:52-169) does to the
  component state when it runs to completion. The results of the network
  calls and of the fuzzy search are inputs. Handlers created in an earlier
  render, such as the speech-recognition callbacks, read that render's
  verse list, which is passed to them as `heard`. The class in `Player`
  performs the same steps on mutable fields and is proved to agree with
  these functions.
*/
module Session {
  import opened Wrappers
  import ArabicText
  import VerseKey

  /** One verse of the loaded surah: `verse_key` "<surah>:<ayah>" and its `text_indopak`. */
  datatype Ayah = Ayah(verseKey: string, text: string)

  /** A commentary record; only its `text` is read. */
  datatype TafsirRecord = TafsirRecord(text: string)

  /** The body of a commentary response: an array of records, or anything else. */
  datatype TafsirBody = Records(records: seq<TafsirRecord>) | NotAnArray

  /** How a request settled: a response body, or a thrown error. */
  datatype Fetch<T> = Received(body: T) | Failed

  /**
    The fuzzy verse search (Fuse.js with threshold 0.3): given the normalised
    transcript and the normalised verse texts, the `refIndex` of its best
    result, or None when it returns no result.
  */
  type Search = (string, seq<string>) -> Option<nat>

  /** The component state this model keeps (src/app/page.js:30-36). */
  datatype State = State(
    selectedSurah: string,
    selectedAyah: string,
    ayahs: seq<Ayah>,
    audioUrl: string,
    tafseerText: string,
    selectedAyahText: string,
    isRecording: bool)

  /** The initial values of the `useState` hooks. */
  const Initial: State := State("", "", [], "", "", "", false)

  /** The text shown when the commentary service has no record for the verse. */
  const NoTafsir: string := "No tafsir available for this ayah."

  // ---------------------------------------------------------------------------
  // Choosing a surah

  /**
    `handleSurahChange`: select the surah and clear the verse, commentary,
    audio and verse text; the verse list is replaced only if its fetch succeeds.
  */
  function SurahChange(s: State, surahId: string, verses: Fetch<seq<Ayah>>): State {
    State(surahId, "", if verses.Received? then verses.body else s.ayahs, "", "", "", s.isRecording)
  }

  lemma SurahChangeClears(s: State, surahId: string, verses: Fetch<seq<Ayah>>)
    ensures var r := SurahChange(s, surahId, verses);
      && r.selectedSurah == surahId
      && r.selectedAyah == "" && r.tafseerText == "" && r.audioUrl == "" && r.selectedAyahText == ""
      && (verses.Received? ==> r.ayahs == verses.body)
      && (verses.Failed? ==> r.ayahs == s.ayahs)
      && r.isRecording == s.isRecording
  {
  }

  // ---------------------------------------------------------------------------
  // Choosing a verse

  /** `ayahs.find(a => a.verse_key === key)`: the first verse with that key. */
  function FindByKey(ayahs: seq<Ayah>, key: string): (r: Option<nat>)
    ensures r.Some? ==> r.value < |ayahs| && ayahs[r.value].verseKey == key
    ensures r.Some? ==> forall j :: 0 <= j < r.value ==> ayahs[j].verseKey != key
    ensures r.None? ==> forall j :: 0 <= j < |ayahs| ==> ayahs[j].verseKey != key
  {
    if ayahs == [] then None
    else if ayahs[0].verseKey == key then Some(0)
    else
      match FindByKey(ayahs[1..], key)
      case None => None
      case Some(i) => Some(i + 1)
  }

  /**
    Lines 99-112: a non-empty array sets the first record's text, any other
    body sets the placeholder, a failed request leaves the text as it was.
  */
  function TafsirText(current: string, response: Fetch<TafsirBody>): string {
    match response
    case Failed => current
    case Received(Records(rs)) => if |rs| > 0 then rs[0].text else NoTafsir
    case Received(NotAnArray) => NoTafsir
  }

  /** Line 85-88: the text of the first verse with that key, or the text already shown. */
  function ShownText(ayahs: seq<Ayah>, key: string, current: string): string {
    match FindByKey(ayahs, key)
    case Some(i) => ayahs[i].text
    case None => current
  }

  /**
    `handleAyahChange`: record the key; stop if the ayah number is out of
    range; show the verse's text if the key is in the list; build the audio
    URL (a key without a colon throws a TypeError at `ayah.padStart` and stops
    here); then apply the commentary response.
  */
  function AyahChange(s: State, key: string, tafsir: Fetch<TafsirBody>): State {
    var parts := VerseKey.KeyParts(key);
    if VerseKey.OutOfRange(parts.1, |s.ayahs|) then s.(selectedAyah := key)
    else
      var text := ShownText(s.ayahs, key, s.selectedAyahText);
      if parts.1.None? then s.(selectedAyah := key, selectedAyahText := text)
      else
        State(s.selectedSurah, key, s.ayahs, VerseKey.AudioUrl(parts.0, parts.1.value),
              TafsirText(s.tafseerText, tafsir), text, s.isRecording)
  }

  /**
    `handleAyahChange` as an earlier render defined it, when the verse list
    was `heard`: the range guard and the verse lookup read `heard`, while
    the setters write the current state. Event handlers created in that
    render, such as the speech-recognition callbacks, call this version.
  */
  function AyahChangeIn(s: State, heard: seq<Ayah>, key: string, tafsir: Fetch<TafsirBody>): State {
    AyahChange(s.(ayahs := heard), key, tafsir).(ayahs := s.ayahs)
  }

  /** Called from the current render, the handler reads the current list. */
  lemma AyahChangeInCurrent(s: State, key: string, tafsir: Fetch<TafsirBody>)
    ensures AyahChangeIn(s, s.ayahs, key, tafsir) == AyahChange(s, key, tafsir)
  {
    assert s.(ayahs := s.ayahs) == s;
    AyahChangeFrame(s, key, tafsir);
  }

  /** An earlier render's handler never touches the list, the surah or the flag. */
  lemma AyahChangeInFrame(s: State, heard: seq<Ayah>, key: string, tafsir: Fetch<TafsirBody>)
    ensures var r := AyahChangeIn(s, heard, key, tafsir);
      && r.selectedAyah == key && r.ayahs == s.ayahs
      && r.selectedSurah == s.selectedSurah && r.isRecording == s.isRecording
  {
    AyahChangeFrame(s.(ayahs := heard), key, tafsir);
  }

  /** The commentary request `handleAyahChange` issues, if it gets that far. */
  function AyahRequest(s: State, key: string): Option<string> {
    var parts := VerseKey.KeyParts(key);
    if VerseKey.OutOfRange(parts.1, |s.ayahs|) || parts.1.None? then None
    else Some(VerseKey.TafsirUrl(parts.0, parts.1.value))
  }

  /** Only the verse, its text, the audio URL and the commentary can change. */
  lemma AyahChangeFrame(s: State, key: string, tafsir: Fetch<TafsirBody>)
    ensures var r := AyahChange(s, key, tafsir);
      && r.selectedAyah == key
      && r.selectedSurah == s.selectedSurah && r.ayahs == s.ayahs && r.isRecording == s.isRecording
  {
  }

  /**
    An out-of-range ayah number stops the handler: the key has already been
    recorded, nothing else changes and no commentary is requested.
  */
  lemma AyahChangeRejects(s: State, key: string, tafsir: Fetch<TafsirBody>)
    requires VerseKey.OutOfRange(VerseKey.KeyParts(key).1, |s.ayahs|)
    ensures AyahChange(s, key, tafsir) == s.(selectedAyah := key)
    ensures AyahRequest(s, key) == None
  {
  }

  /** An accepted key with an ayah part: verse text, audio URL, commentary and request. */
  lemma AyahChangeAccepts(s: State, key: string, tafsir: Fetch<TafsirBody>)
    requires !VerseKey.OutOfRange(VerseKey.KeyParts(key).1, |s.ayahs|)
    requires VerseKey.KeyParts(key).1.Some?
    ensures var r := AyahChange(s, key, tafsir);
      var parts := VerseKey.KeyParts(key);
      && r.audioUrl == VerseKey.AudioUrl(parts.0, parts.1.value)
      && r.tafseerText == TafsirText(s.tafseerText, tafsir)
      && r.selectedAyahText == ShownText(s.ayahs, key, s.selectedAyahText)
      && AyahRequest(s, key) == Some(VerseKey.TafsirUrl(parts.0, parts.1.value))
  {
  }

  /** A key without a colon gets its verse text looked up, and then the handler throws. */
  lemma AyahChangeWithoutColon(s: State, key: string, tafsir: Fetch<TafsirBody>)
    requires ':' !in key
    ensures var r := AyahChange(s, key, tafsir);
      && r.audioUrl == s.audioUrl && r.tafseerText == s.tafseerText
      && r.selectedAyahText == ShownText(s.ayahs, key, s.selectedAyahText)
      && AyahRequest(s, key) == None
  {
  }

  /** The three outcomes of the commentary request. */
  lemma TafsirChoice(current: string, response: Fetch<TafsirBody>)
    ensures response.Failed? ==> TafsirText(current, response) == current
    ensures response.Received? && response.body.Records? && |response.body.records| > 0
            ==> TafsirText(current, response) == response.body.records[0].text
    ensures response.Received? && (response.body.NotAnArray? || response.body.records == [])
            ==> TafsirText(current, response) == NoTafsir
  {
  }

  /**
    For a key "<surah>:<ayah>" written in decimal digits the guard admits
    exactly the ayah numbers 1 to the length of the loaded list.
  */
  lemma DecimalKeyAccepted(s: State, surah: string, ayah: string, tafsir: Fetch<TafsirBody>)
    requires ':' !in surah && ayah != [] && VerseKey.AllDecimal(ayah)
    ensures var n := VerseKey.Value(ayah, 10); var key := surah + ":" + ayah;
      && (1 <= n <= |s.ayahs| ==>
            AyahChange(s, key, tafsir)
            == State(s.selectedSurah, key, s.ayahs, VerseKey.AudioUrl(surah, ayah),
                     TafsirText(s.tafseerText, tafsir), ShownText(s.ayahs, key, s.selectedAyahText),
                     s.isRecording))
      && (!(1 <= n <= |s.ayahs|) ==> AyahChange(s, key, tafsir) == s.(selectedAyah := key))
  {
    VerseKey.DecimalHasNoColon(ayah);
    VerseKey.KeyPartsOfKey(surah, ayah);
    VerseKey.OutOfRangeDecimal(ayah, |s.ayahs|);
  }

  /** With seven verses of surah 2 loaded, "2:0" is refused. */
  lemma RejectZero(s: State, tafsir: Fetch<TafsirBody>)
    requires |s.ayahs| == 7
    ensures AyahChange(s, "2:0", tafsir) == s.(selectedAyah := "2:0")
  {
    assert "2:0" == "2" + ":" + "0";
    DecimalKeyAccepted(s, "2", "0", tafsir);
  }

  /** With seven verses of surah 2 loaded, "2:9999" is refused. */
  lemma RejectTooLarge(s: State, tafsir: Fetch<TafsirBody>)
    requires |s.ayahs| == 7
    ensures AyahChange(s, "2:9999", tafsir) == s.(selectedAyah := "2:9999")
  {
    assert "2:9999" == "2" + ":" + "9999";
    ValueOf9999();
    DecimalKeyAccepted(s, "2", "9999", tafsir);
  }

  lemma ValueOf9999()
    ensures VerseKey.AllDecimal("9999") && VerseKey.Value("9999", 10) == 9999
  {
    assert "9"[..0] == [] && VerseKey.Value("9", 10) == 9;
    assert "99"[..1] == "9" && VerseKey.Value("99", 10) == 99;
    assert "999"[..2] == "99" && VerseKey.Value("999", 10) == 999;
    assert "9999"[..3] == "999";
  }

  lemma AcceptExampleUrl(s: State, tafsir: Fetch<TafsirBody>)
    requires |s.ayahs| == 7
    ensures AyahChange(s, "2:1", tafsir).audioUrl == VerseKey.AudioUrl("2", "1")
  {
    assert "2:1" == "2" + ":" + "1";
    DecimalKeyAccepted(s, "2", "1", tafsir);
  }

  /** With seven verses loaded, "2:1" is accepted and loads the file 002001.mp3. */
  lemma AcceptExample(s: State, tafsir: Fetch<TafsirBody>)
    requires |s.ayahs| == 7
    ensures AyahChange(s, "2:1", tafsir).audioUrl == VerseKey.AudioBase + "002001.mp3"
  {
    AcceptExampleUrl(s, tafsir);
    VerseKey.AudioUrlOneDigit("2", "1");
    assert ['0', '0', '2', '0', '0', '1'] + ".mp3" == "002001.mp3";
  }

  /**
    An ayah part without leading digits reads as NaN, which fails both
    comparisons of line 80: the handler goes on to build an audio URL from it.
  */
  lemma NotANumberPassesGuard(s: State, surah: string, ayah: string, tafsir: Fetch<TafsirBody>)
    requires ':' !in surah && ':' !in ayah && VerseKey.ParseInt(ayah) == None
    ensures AyahChange(s, surah + ":" + ayah, tafsir).audioUrl == VerseKey.AudioUrl(surah, ayah)
  {
    VerseKey.KeyPartsOfKey(surah, ayah);
  }

  // ---------------------------------------------------------------------------
  // A verse list keyed in order

  /** The decimal numeral of a number, without leading zeros. */
  function Decimal(n: nat): (r: string)
    ensures r != [] && VerseKey.AllDecimal(r)
    ensures VerseKey.Value(r, 10) == n
  {
    var digit := ['0' + ((n % 10) as char)];
    if n < 10 then digit
    else
      var r := Decimal(n / 10) + digit;
      assert r[..|r| - 1] == Decimal(n / 10);
      r
  }

  /** The list the verse service returns for a surah: verse i + 1 has key "<surah>:<i + 1>". */
  predicate KeyedInOrder(ayahs: seq<Ayah>, surah: string) {
    forall i :: 0 <= i < |ayahs| ==> ayahs[i].verseKey == surah + ":" + Decimal(i + 1)
  }

  lemma KeyInjective(surah: string, x: string, y: string)
    ensures surah + ":" + x == surah + ":" + y ==> x == y
  {
    var k := |surah| + 1;
    assert (surah + ":" + x)[k..] == x;
    assert (surah + ":" + y)[k..] == y;
  }

  /** The first verse carrying a key is the one `FindByKey` returns. */
  lemma FindFirst(ayahs: seq<Ayah>, key: string, i: nat)
    requires i < |ayahs| && ayahs[i].verseKey == key
    requires forall j :: 0 <= j < i ==> ayahs[j].verseKey != key
    ensures FindByKey(ayahs, key) == Some(i)
  {
  }

  /**
    Choosing any listed verse of a list keyed in order, from the verse menu
    or from a voice match, is accepted and shows that verse: its text, and
    the audio file of the surah and its verse number.
  */
  lemma ListedKeyLoads(s: State, surah: string, i: nat, tafsir: Fetch<TafsirBody>)
    requires ':' !in surah && KeyedInOrder(s.ayahs, surah) && i < |s.ayahs|
    ensures var r := AyahChange(s, s.ayahs[i].verseKey, tafsir);
      && r.selectedAyah == s.ayahs[i].verseKey
      && r.selectedAyahText == s.ayahs[i].text
      && r.audioUrl == VerseKey.AudioUrl(surah, Decimal(i + 1))
      && r.tafseerText == TafsirText(s.tafseerText, tafsir)
  {
    var key := s.ayahs[i].verseKey;
    var num := Decimal(i + 1);
    DecimalKeyAccepted(s, surah, num, tafsir);
    forall j | 0 <= j < i
      ensures s.ayahs[j].verseKey != key
    {
      assert VerseKey.Value(Decimal(j + 1), 10) != VerseKey.Value(num, 10);
      KeyInjective(surah, Decimal(j + 1), num);
    }
    FindFirst(s.ayahs, key, i);
  }

  // ---------------------------------------------------------------------------
  // Voice input

  /** `ayahs.map(a => normalizeText(a.text_indopak))`. */
  function NormalizedTexts(ayahs: seq<Ayah>): (r: seq<string>)
    ensures |r| == |ayahs|
    ensures forall i :: 0 <= i < |r| ==> ArabicText.IsNormal(r[i])
  {
    seq(|ayahs|, i requires 0 <= i < |ayahs| => ArabicText.Normalize(ayahs[i].text))
  }

  /** What the search means for the session: no result, a verse key, or an index past the list. */
  datatype MatchOutcome = NoMatch | Matched(key: string) | IndexPastList

  /** Lines 153-168 up to the call: normalise both sides, search, read the key of the best result. */
  function MatchOutcomeOf(ayahs: seq<Ayah>, spoken: string, search: Search): MatchOutcome {
    match search(ArabicText.Normalize(spoken), NormalizedTexts(ayahs))
    case None => NoMatch
    case Some(i) => if i < |ayahs| then Matched(ayahs[i].verseKey) else IndexPastList
  }

  /**
    `findMatchingAyah` of the render whose verse list was `heard`: it searches
    `heard`, and a match re-enters that render's `handleAyahChange` with its
    key; no result changes nothing. (An index past the list would throw a
    TypeError at `.verse_key` before anything changes.)
  */
  function FindMatching(s: State, heard: seq<Ayah>, spoken: string, search: Search, tafsir: Fetch<TafsirBody>): State {
    match MatchOutcomeOf(heard, spoken, search)
    case Matched(key) => AyahChangeIn(s, heard, key, tafsir)
    case _ => s
  }

  /**
    `recognition.onresult`: find the verse, then stop recording (unless the
    search threw). The callback was created when the record button was
    pressed, so it searches `heard`, the verse list of that moment, even if a
    surah change has loaded another list since.
  */
  function RecognitionResult(s: State, heard: seq<Ayah>, spoken: string, search: Search, tafsir: Fetch<TafsirBody>): State {
    var r := FindMatching(s, heard, spoken, search, tafsir);
    if MatchOutcomeOf(heard, spoken, search).IndexPastList? then r else r.(isRecording := false)
  }

  /** `recognition.onerror`: stop recording. */
  function RecognitionError(s: State): State {
    s.(isRecording := false)
  }

  /** The record button is enabled when nothing is being recorded and a surah is chosen (line 231). */
  predicate CanRecord(s: State) {
    !s.isRecording && s.selectedSurah != ""
  }

  /**
    A click on the record button: nothing when the button is disabled or the
    browser has no speech recognition; otherwise recording starts.
  */
  function PressRecord(s: State, supported: bool): State {
    if CanRecord(s) && supported then s.(isRecording := true) else s
  }

  /** The search sees the normalised transcript and one normalised text per verse. */
  lemma SearchSeesNormalizedText(ayahs: seq<Ayah>, spoken: string)
    ensures ArabicText.IsNormal(ArabicText.Normalize(spoken))
    ensures |NormalizedTexts(ayahs)| == |ayahs|
    ensures forall i :: 0 <= i < |ayahs| ==> NormalizedTexts(ayahs)[i] == ArabicText.Normalize(ayahs[i].text)
  {
  }

  /** A match is always the key of the verse the search pointed at. */
  lemma MatchIsListedKey(ayahs: seq<Ayah>, spoken: string, search: Search)
    requires MatchOutcomeOf(ayahs, spoken, search).Matched?
    ensures var i := search(ArabicText.Normalize(spoken), NormalizedTexts(ayahs));
      && i.Some? && i.value < |ayahs|
      && MatchOutcomeOf(ayahs, spoken, search).key == ayahs[i.value].verseKey
  {
  }

  /**
    A recognition result: with no search result only the recording flag
    changes; with a result inside the list heard at the press, that verse is
    chosen as the menu of that moment would choose it; either way recording
    stops and the current verse list stays.
  */
  lemma RecognitionResultEffect(s: State, heard: seq<Ayah>, spoken: string, search: Search, tafsir: Fetch<TafsirBody>)
    requires search(ArabicText.Normalize(spoken), NormalizedTexts(heard)).Some? ==>
             search(ArabicText.Normalize(spoken), NormalizedTexts(heard)).value < |heard|
    ensures var r := RecognitionResult(s, heard, spoken, search, tafsir);
      var hit := search(ArabicText.Normalize(spoken), NormalizedTexts(heard));
      && !r.isRecording && r.ayahs == s.ayahs
      && (hit.None? ==> r == s.(isRecording := false))
      && (hit.Some? ==> r == AyahChangeIn(s, heard, heard[hit.value].verseKey, tafsir).(isRecording := false))
  {
    var m := MatchOutcomeOf(heard, spoken, search);
    if m.Matched? {
      AyahChangeInFrame(s, heard, m.key, tafsir);
    }
  }

  /** With the list unchanged since the press, a result is a menu choice on the current list. */
  lemma RecognitionResultCurrent(s: State, spoken: string, search: Search, tafsir: Fetch<TafsirBody>)
    requires MatchOutcomeOf(s.ayahs, spoken, search).Matched?
    ensures RecognitionResult(s, s.ayahs, spoken, search, tafsir)
         == AyahChange(s, MatchOutcomeOf(s.ayahs, spoken, search).key, tafsir).(isRecording := false)
  {
    var key := MatchOutcomeOf(s.ayahs, spoken, search).key;
    assert FindMatching(s, s.ayahs, spoken, search, tafsir) == AyahChangeIn(s, s.ayahs, key, tafsir);
    AyahChangeInCurrent(s, key, tafsir);
  }

  /**
    A voice match in a list keyed in order shows the matched verse of the
    list heard at the press and its audio, whatever list is loaded now.
  */
  lemma VoiceMatchLoads(s: State, heard: seq<Ayah>, surah: string, spoken: string, search: Search, tafsir: Fetch<TafsirBody>)
    requires ':' !in surah && KeyedInOrder(heard, surah)
    requires var hit := search(ArabicText.Normalize(spoken), NormalizedTexts(heard));
      hit.Some? && hit.value < |heard|
    ensures var i := search(ArabicText.Normalize(spoken), NormalizedTexts(heard)).value;
      var r := RecognitionResult(s, heard, spoken, search, tafsir);
      && r.selectedAyah == heard[i].verseKey
      && r.selectedAyahText == heard[i].text
      && r.audioUrl == VerseKey.AudioUrl(surah, Decimal(i + 1))
      && !r.isRecording && r.ayahs == s.ayahs
  {
    var i := search(ArabicText.Normalize(spoken), NormalizedTexts(heard)).value;
    RecognitionResultEffect(s, heard, spoken, search, tafsir);
    ListedKeyLoads(s.(ayahs := heard), surah, i, tafsir);
  }

  /** Pressing the button while recording, or before a surah is chosen, does nothing. */
  lemma PressRecordGuard(s: State, supported: bool)
    ensures s.isRecording || s.selectedSurah == "" ==> PressRecord(s, supported) == s
    ensures !supported ==> PressRecord(s, supported) == s
    ensures CanRecord(s) && supported ==> PressRecord(s, supported) == s.(isRecording := true)
  {
  }

  /** Recording is only ever switched on with a surah chosen. */
  lemma RecordingNeedsSurah(s: State, supported: bool)
    requires !s.isRecording
    ensures PressRecord(s, supported).isRecording ==> PressRecord(s, supported).selectedSurah != ""
  {
  }
}
