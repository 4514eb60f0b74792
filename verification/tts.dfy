/** The text-to-speech engine's pure part: voice choice, the language and
    gender setters, the blank-text guard in front of synthesis, and the
    birthday announcement's text and file name. Synthesis itself (the
    edge_tts service) is a yes/no answer passed in. */
module Tts {
  import opened Wrappers
  import opened Text

  /** One row of `VOICES`: a language code with its male and female voices. */
  datatype VoicePair = VoicePair(lang: string, male: string, female: string)

  const Voices: seq<VoicePair> := [
    VoicePair("tr", "tr-TR-AhmetNeural", "tr-TR-EmelNeural"),
    VoicePair("en", "en-US-GuyNeural", "en-US-JennyNeural"),
    VoicePair("de", "de-DE-ConradNeural", "de-DE-KatjaNeural"),
    VoicePair("ru", "ru-RU-DmitryNeural", "ru-RU-SvetlanaNeural"),
    VoicePair("bg", "bg-BG-BorislavNeural", "bg-BG-KalinaNeural")
  ]

  /** Every voice name the table holds. */
  predicate IsTableVoice(v: string) {
    exists i :: 0 <= i < |Voices| && (v == Voices[i].male || v == Voices[i].female)
  }

  predicate KnownLanguage(lang: string) {
    exists i :: 0 <= i < |Voices| && Voices[i].lang == lang
  }

  /** `VOICES.get(lang)`. */
  function VoicesFor(lang: string): (r: Option<VoicePair>)
    ensures r.Some? <==> KnownLanguage(lang)
    ensures r.Some? ==> r.value in Voices && r.value.lang == lang
  {
    if lang == "tr" then Some(Voices[0])
    else if lang == "en" then Some(Voices[1])
    else if lang == "de" then Some(Voices[2])
    else if lang == "ru" then Some(Voices[3])
    else if lang == "bg" then Some(Voices[4])
    else None
  }

  datatype Engine = Engine(language: string, gender: string, rate: string)

  /** A freshly constructed engine: Turkish, female, normal rate. */
  const Initial: Engine := Engine("tr", "female", "+0%")

  /** The state every engine reaches through its setters. */
  predicate Settled(e: Engine) {
    KnownLanguage(e.language) && (e.gender == "male" || e.gender == "female")
  }

  /** `get_voice`: the voice for the language and gender, falling back to
      Turkish for an unknown language and to the male voice for an unknown
      gender. */
  function GetVoice(e: Engine): (r: string)
    ensures IsTableVoice(r)
    ensures KnownLanguage(e.language) ==>
              r == (if e.gender == "female" then VoicesFor(e.language).value.female else VoicesFor(e.language).value.male)
    ensures !KnownLanguage(e.language) ==>
              r == (if e.gender == "female" then "tr-TR-EmelNeural" else "tr-TR-AhmetNeural")
  {
    var pair := VoicesFor(e.language).GetOr(Voices[0]);
    if e.gender == "female" then pair.female
    else pair.male
  }

  /** `set_language`: only codes of the voice table are taken. */
  function SetLanguage(e: Engine, lang: string): (r: Engine)
    ensures r.gender == e.gender && r.rate == e.rate
    ensures r.language == (if KnownLanguage(lang) then lang else e.language)
  {
    if VoicesFor(lang).Some? then e.(language := lang) else e
  }

  /** `set_gender`: only "male" and "female" are taken. */
  function SetGender(e: Engine, gender: string): (r: Engine)
    ensures r.language == e.language && r.rate == e.rate
    ensures r.gender == (if gender == "male" || gender == "female" then gender else e.gender)
  {
    if gender == "male" || gender == "female" then e.(gender := gender) else e
  }

  /** The setters never leave the table: from any settled engine, language
      and gender stay among the accepted values. */
  lemma SettersKeepSettled(e: Engine, lang: string, gender: string)
    requires Settled(e)
    ensures Settled(SetLanguage(e, lang)) && Settled(SetGender(e, gender))
  {
  }

  lemma InitialSettled()
    ensures Settled(Initial)
    ensures GetVoice(Initial) == "tr-TR-EmelNeural"
  {
    assert Voices[0].lang == "tr";
  }

  /** On a settled engine no fallback applies: the voice is the chosen
      language's voice of the chosen gender. */
  lemma SettledVoiceIsChosen(e: Engine)
    requires Settled(e)
    ensures var p := VoicesFor(e.language).value;
            GetVoice(e) == (if e.gender == "male" then p.male else p.female)
  {
  }

  /** A request to the synthesis service: what `_generate_core` sends. */
  datatype Synthesis = Synthesis(text: string, voice: string, rate: string, path: string)

  /** The announcement directory's `tts` sub-directory. */
  const TtsDir: string := "announcements/tts"

  /** `generate(text, filename)`: blank text (empty after `strip()`) returns
      `None` before anything is synthesised. Otherwise the file is
      `filename`, or `tts_` + the first eight hex digits of a fresh UUID
      (`token`) + `.mp3`, in the TTS directory; the path is returned when
      synthesis succeeded and the file exists (`ok`). Returns the synthesis
      request made, if any, and the result. */
  function Generate(e: Engine, text: string, filename: Option<string>, token: string, ok: bool): (r: (Option<Synthesis>, Option<string>))
    ensures r.0.None? <==> AllSpace(text)
    ensures r.0.Some? ==> r.0.value.text == text && r.0.value.voice == GetVoice(e) && r.0.value.rate == e.rate
    ensures r.0.Some? ==> r.0.value.path == TtsDir + "/" + filename.GetOr("tts_" + token + ".mp3")
    ensures r.1.Some? <==> r.0.Some? && ok
    ensures r.1.Some? ==> r.1.value == r.0.value.path
  {
    if Strip(text) == "" then (None, None)
    else
      var name := match filename case Some(f) => f case None => "tts_" + token + ".mp3";
      var req := Synthesis(text, GetVoice(e), e.rate, TtsDir + "/" + name);
      (Some(req), if ok then Some(req.path) else None)
  }

  /** Whitespace never reaches the synthesis service, whatever it would
      answer. */
  lemma BlankTextIsNeverSynthesised(e: Engine, text: string, filename: Option<string>, token: string, ok: bool)
    requires AllSpace(text)
    ensures Generate(e, text, filename, token, ok) == (None, None)
  {
  }

  /** The default birthday template, cut at its one `{name}` field. */
  const TemplateHead: string := "Bugün "
  const TemplateTail: string :=
    " isimli çalışanımızın" + " doğum günü." + " Kendisine mutlu" + " yıllar diliyoruz!"
  const BirthdayTemplate: string := TemplateHead + "{name}" + TemplateTail

  /** The announcement file for a birthday: `birthday_<name>.mp3` with the
      name's spaces as underscores. */
  function BirthdayFile(name: string): (r: string)
    ensures |r| == |name| + 13
    ensures ' ' !in r[9..|r| - 4]
    ensures forall k :: 0 <= k < |name| ==> r[9 + k] == (if name[k] == ' ' then '_' else name[k])
  {
    var r := "birthday_" + ReplaceChar(name, ' ', '_') + ".mp3";
    assert r[9..|r| - 4] == ReplaceChar(name, ' ', '_');
    r
  }

  /** `generate_birthday(name, template)`: the template (the default one
      when none is given) with `{name}` filled in, synthesised under the
      birthday file name. `None` is the exception a malformed template
      raises. */
  function GenerateBirthday(e: Engine, name: string, template: Option<string>, ok: bool): (r: Option<(Option<Synthesis>, Option<string>)>)
    ensures r.None? <==> FormatName(template.GetOr(BirthdayTemplate), name).None?
    ensures r.Some? ==> r.value == Generate(e, FormatName(template.GetOr(BirthdayTemplate), name).value, Some(BirthdayFile(name)), "", ok)
  {
    match FormatName(template.GetOr(BirthdayTemplate), name)
    case None => None
    case Some(text) => Some(Generate(e, text, Some(BirthdayFile(name)), "", ok))
  }

  /** Text free of braces passes through the formatter unchanged in front
      of whatever follows. */
  lemma {:induction false} FormatPlainPrefix(a: string, rest: string, name: string)
    requires '{' !in a && '}' !in a
    ensures FormatName(a + rest, name) == match FormatName(rest, name) case Some(x) => Some(a + x) case None => None
    decreases |a|
  {
    if |a| > 0 {
      assert (a + rest)[0] == a[0];
      assert (a + rest)[1..] == a[1..] + rest;
      assert a[0] in a;
      FormatPlainPrefix(a[1..], rest, name);
      if FormatName(rest, name).Some? {
        assert a + FormatName(rest, name).value == [a[0]] + (a[1..] + FormatName(rest, name).value);
      }
    } else {
      assert a + rest == rest;
      if FormatName(rest, name).Some? {
        assert a + FormatName(rest, name).value == FormatName(rest, name).value;
      }
    }
  }

  /** A template with a single `{name}` field and no other braces reads
      with the name in place of the field. */
  lemma FormatOneField(a: string, b: string, name: string)
    requires '{' !in a && '}' !in a && '{' !in b && '}' !in b
    ensures FormatName(a + "{name}" + b, name) == Some(a + name + b)
  {
    var rest := "{name}" + b;
    assert a + "{name}" + b == a + rest;
    assert StartsWith(rest, "{name}");
    assert rest[6..] == b;
    assert FormatName(rest, name) == Some(name + b);
    FormatPlainPrefix(a, rest, name);
    assert a + (name + b) == a + name + b;
  }

  lemma TemplatePiecesBraceFree()
    ensures '{' !in TemplateHead && '}' !in TemplateHead
    ensures '{' !in TemplateTail && '}' !in TemplateTail
  {
    var b1, b2, b3, b4 := " isimli çalışanımızın", " doğum günü.", " Kendisine mutlu", " yıllar diliyoruz!";
    assert '{' !in b1 && '}' !in b1;
    assert '{' !in b2 && '}' !in b2;
    assert '{' !in b3 && '}' !in b3;
    assert '{' !in b4 && '}' !in b4;
  }

  /** With no template, the birthday announcement says "Bugün <name>
      isimli çalışanımızın doğum günü. Kendisine mutlu yıllar diliyoruz!",
      and it is written to the birthday file. */
  lemma DefaultBirthdayText(e: Engine, name: string, ok: bool)
    ensures GenerateBirthday(e, name, None, ok)
            == Some(Generate(e, TemplateHead + name + TemplateTail, Some(BirthdayFile(name)), "", ok))
    ensures var r := GenerateBirthday(e, name, None, ok).value;
            r.0.Some? && r.0.value.path == TtsDir + "/" + BirthdayFile(name)
  {
    TemplatePiecesBraceFree();
    FormatOneField(TemplateHead, TemplateTail, name);
    var text := TemplateHead + name + TemplateTail;
    assert text[0] == 'B';
    assert !AllSpace(text);
  }
}
