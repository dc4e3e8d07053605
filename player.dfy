/**
  The `QuranAudioPlayer` component as an object: the seven pieces of state
  its handlers update (src/app/page.js:30-36) are fields, and each handler is
  a method that reaches the final state of the handler's setter calls, with
  the outcome of its network request or speech event passed in. Every method is
  proved to leave the object in the state the matching function of `Session`
  describes, so the lemmas there apply to the object. One more field,
  `heardAyahs`, holds the verse list the speech-recognition callbacks
  captured when recording started.
*/
module Player {
  import opened Wrappers
  import ArabicText
  import VerseKey
  import Session

  class QuranAudioPlayer {
    var selectedSurah: string
    var selectedAyah: string
    var ayahs: seq<Session.Ayah>
    var audioUrl: string
    var tafseerText: string
    var selectedAyahText: string
    var isRecording: bool
    /** The verse list of the render whose record handler created the current callbacks. */
    var heardAyahs: seq<Session.Ayah>

    /** The fields as one value. */
    function Snapshot(): Session.State
      reads this
    {
      Session.State(selectedSurah, selectedAyah, ayahs, audioUrl, tafseerText, selectedAyahText, isRecording)
    }

    /** The initial values of the state hooks. */
    constructor ()
      ensures Snapshot() == Session.Initial && heardAyahs == []
    {
      selectedSurah, selectedAyah, ayahs := "", "", [];
      audioUrl, tafseerText, selectedAyahText := "", "", "";
      isRecording := false;
      heardAyahs := [];
    }

    /** `handleSurahChange(surahId)`, the verse-list request settling with `verses`. */
    method HandleSurahChange(surahId: string, verses: Session.Fetch<seq<Session.Ayah>>)
      modifies this
      ensures Snapshot() == Session.SurahChange(old(Snapshot()), surahId, verses)
      ensures selectedAyah == "" && tafseerText == "" && audioUrl == "" && selectedAyahText == ""
      ensures ayahs == if verses.Received? then verses.body else old(ayahs)
      ensures heardAyahs == old(heardAyahs)
    {
      selectedSurah := surahId;
      selectedAyah := "";
      tafseerText := "";
      audioUrl := "";
      selectedAyahText := "";
      match verses {
        case Received(list) => ayahs := list;
        case Failed =>
      }
    }

    /**
      `handleAyahChange(key)` from the current render, the commentary request
      settling with `tafsir`. Returns the commentary URL requested, None when
      the handler stopped first.
    */
    method HandleAyahChange(key: string, tafsir: Session.Fetch<Session.TafsirBody>) returns (request: Option<string>)
      modifies this
      ensures Snapshot() == Session.AyahChange(old(Snapshot()), key, tafsir)
      ensures request == Session.AyahRequest(old(Snapshot()), key)
      ensures selectedAyah == key
      ensures selectedSurah == old(selectedSurah) && ayahs == old(ayahs) && isRecording == old(isRecording)
      ensures VerseKey.OutOfRange(VerseKey.KeyParts(key).1, |old(ayahs)|) ==>
        audioUrl == old(audioUrl) && tafseerText == old(tafseerText) && selectedAyahText == old(selectedAyahText)
      ensures heardAyahs == old(heardAyahs)
    {
      ghost var s0 := Snapshot();
      request := AyahChangeFrom(ayahs, key, tafsir);
      Session.AyahChangeInCurrent(s0, key, tafsir);
      if VerseKey.OutOfRange(VerseKey.KeyParts(key).1, |s0.ayahs|) {
        Session.AyahChangeRejects(s0, key, tafsir);
      }
    }

    /**
      `handleAyahChange(key)` as the render holding the verse list `heard`
      defined it: the guard and the lookup read `heard`, the setters write the
      fields.
    */
    method AyahChangeFrom(heard: seq<Session.Ayah>, key: string, tafsir: Session.Fetch<Session.TafsirBody>)
      returns (request: Option<string>)
      modifies this
      ensures Snapshot() == Session.AyahChangeIn(old(Snapshot()), heard, key, tafsir)
      ensures request == Session.AyahRequest(old(Snapshot()).(ayahs := heard), key)
      ensures ayahs == old(ayahs) && heardAyahs == old(heardAyahs)
    {
      ghost var s0 := Snapshot();
      ghost var h0 := s0.(ayahs := heard);
      var parts := VerseKey.KeyParts(key);
      var surah, ayah := parts.0, parts.1;
      if VerseKey.OutOfRange(ayah, |heard|) {
        selectedAyah := key;
        assert Snapshot() == Session.AyahChangeIn(s0, heard, key, tafsir);
        return None;
      }
      var text := selectedAyahText;
      var found := Session.FindByKey(heard, key);
      if found.Some? {
        text := heard[found.value].text;
      }
      if ayah.None? {
        // `ayah.padStart` on undefined throws a TypeError
        selectedAyah, selectedAyahText := key, text;
        assert Snapshot() == Session.AyahChangeIn(s0, heard, key, tafsir);
        return None;
      }
      var commentary := tafseerText;
      match tafsir {
        case Received(body) =>
          if body.Records? && |body.records| > 0 {
            commentary := body.records[0].text;
          } else {
            commentary := Session.NoTafsir;
          }
        case Failed =>
      }
      var url := VerseKey.AudioUrl(surah, ayah.value);
      Session.AyahChangeAccepts(h0, key, tafsir);
      selectedAyah, audioUrl, tafseerText, selectedAyahText := key, url, commentary, text;
      request := Some(VerseKey.TafsirUrl(surah, ayah.value));
      assert Snapshot() == Session.AyahChangeIn(s0, heard, key, tafsir);
    }

    /**
      `findMatchingAyah(spokenText)` of the render holding the verse list
      `heard`, with the fuzzy search `search`; when it matches, `tafsir` is
      what the re-entered `handleAyahChange` receives. `completed` is false
      when the search's index lies past the list, where `.verse_key` of
      undefined throws.
    */
    method FindMatchingAyah(heard: seq<Session.Ayah>, spoken: string, search: Session.Search,
                            tafsir: Session.Fetch<Session.TafsirBody>)
      returns (completed: bool)
      modifies this
      ensures Snapshot() == Session.FindMatching(old(Snapshot()), heard, spoken, search, tafsir)
      ensures completed == !Session.MatchOutcomeOf(heard, spoken, search).IndexPastList?
      ensures !Session.MatchOutcomeOf(heard, spoken, search).Matched? ==> Snapshot() == old(Snapshot())
      ensures isRecording == old(isRecording) && ayahs == old(ayahs) && heardAyahs == old(heardAyahs)
    {
      var query := ArabicText.Normalize(spoken);
      var texts := Session.NormalizedTexts(heard);
      var result := search(query, texts);
      if result.None? {
        return true;
      }
      if result.value >= |heard| {
        return false;
      }
      ghost var s0 := Snapshot();
      var _ := AyahChangeFrom(heard, heard[result.value].verseKey, tafsir);
      Session.AyahChangeInFrame(s0, heard, heard[result.value].verseKey, tafsir);
      completed := true;
    }

    /** A click on the record button; `supported` says whether the browser has speech recognition. */
    method PressRecordButton(supported: bool)
      modifies this
      ensures Snapshot() == Session.PressRecord(old(Snapshot()), supported)
      ensures isRecording <==> old(isRecording) || (old(selectedSurah) != "" && supported)
      ensures heardAyahs == if Session.CanRecord(old(Snapshot())) && supported then old(ayahs) else old(heardAyahs)
    {
      if isRecording || selectedSurah == "" {
        // the button is disabled
        return;
      }
      if !supported {
        return;
      }
      isRecording := true;
      heardAyahs := ayahs;
    }

    /**
      `recognition.onresult` with the transcript `spoken`. The callback
      belongs to the render of the press, so it searches `heardAyahs`.
    */
    method OnRecognitionResult(spoken: string, search: Session.Search, tafsir: Session.Fetch<Session.TafsirBody>)
      modifies this
      ensures Snapshot() == Session.RecognitionResult(old(Snapshot()), old(heardAyahs), spoken, search, tafsir)
      ensures !Session.MatchOutcomeOf(old(heardAyahs), spoken, search).IndexPastList? ==> !isRecording
      ensures ayahs == old(ayahs) && heardAyahs == old(heardAyahs)
    {
      var completed := FindMatchingAyah(heardAyahs, spoken, search, tafsir);
      if completed {
        isRecording := false;
      }
    }

    /** `recognition.onerror`. */
    method OnRecognitionError()
      modifies this
      ensures Snapshot() == Session.RecognitionError(old(Snapshot()))
      ensures !isRecording && heardAyahs == old(heardAyahs)
    {
      isRecording := false;
    }
  }

  /**
    A session driven through the handlers: choose surah 2 (whose verse list
    arrives as `verses`), pick its first verse from the menu, press record.
  */
  method ExampleSession(verses: seq<Session.Ayah>, tafsir: Session.Fetch<Session.TafsirBody>)
    requires |verses| == 7 && Session.KeyedInOrder(verses, "2")
  {
    var p := new QuranAudioPlayer();
    p.HandleSurahChange("2", Session.Received(verses));
    assert p.ayahs == verses && p.selectedSurah == "2";
    ghost var before := p.Snapshot();
    var key := verses[0].verseKey;
    var _ := p.HandleAyahChange(key, tafsir);
    Session.ListedKeyLoads(before, "2", 0, tafsir);
    assert p.selectedAyah == key && p.selectedAyahText == verses[0].text;
    p.PressRecordButton(true);
    assert p.isRecording;
  }
}
