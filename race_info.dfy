/**
 * Race-level extractors: title, subtitle and track condition are the looked-up
 * text as it is; weather, temperature, humidity and pavement temperature are
 * "label：value" spans of the weather block, reduced to the value.
 *
 * Weather and temperature read the same span (the second one); the model
 * keeps that, so the two fields always agree.
 */
module RaceExtractors {
  import opened Base
  import opened PyStr
  import opened Page

  /** The full-width colon U+FF1A between label and value. */
  const LabelSeparator: char := '：'

  /**
   * `text.partition('：')[2] if text else None`. None for an absent or empty
   * text; otherwise the text after the first colon, which is "" when there is
   * no colon. `partition` cannot raise, so neither can this.
   */
  function AfterColon(text: Option<string>): (r: Option<string>)
    ensures r.None? <==> !Truthy(text)
    ensures r.Some? && LabelSeparator !in text.value ==> r.value == ""
    ensures r.Some? && LabelSeparator in text.value ==>
      var t, v := text.value, r.value;
      |v| < |t| && t[|t| - |v|..] == v && t[|t| - |v| - 1] == LabelSeparator
      && LabelSeparator !in t[..|t| - |v| - 1]
  {
    if Truthy(text) then
      var (head, sep, tail) := Partition(text.value, LabelSeparator);
      if LabelSeparator in text.value then
        assert text.value[..|head|] == head;
        assert text.value[|head| + 1..] == tail;
        Some(tail)
      else Some(tail)
    else None
  }

  /** Round trip: for any colon-free label, the span "<label>：<value>" gives back the value. */
  lemma AfterColonRoundTrip(caption: string, value: string)
    requires LabelSeparator !in caption
    ensures AfterColon(Some(caption + [LabelSeparator] + value)) == Some(value)
  {
    PartitionUnique(caption + [LabelSeparator] + value, LabelSeparator, caption, value);
  }

  lemma AfterColonExamples()
    ensures AfterColon(Some("天候：晴れ")) == Some("晴れ")
    ensures AfterColon(Some("晴れ")) == Some("")
    ensures AfterColon(Some("")) == None
    ensures AfterColon(None) == None
  {
    AfterColonRoundTrip("天候", "晴れ");
    assert "天候" + [LabelSeparator] + "晴れ" == "天候：晴れ";
  }

  /** The title: the looked-up text unchanged, "" kept as "". */
  function RaceTitle(doc: Doc): (r: Option<string>)
    ensures r.Some? <==> Title in doc.texts
    ensures r.Some? ==> r.value == doc.texts[Title]
  {
    GetText(doc, Title)
  }

  /** The subtitle: the looked-up text unchanged. */
  function RaceSubtitle(doc: Doc): (r: Option<string>)
    ensures r.Some? <==> SubTitle in doc.texts
    ensures r.Some? ==> r.value == doc.texts[SubTitle]
  {
    GetText(doc, SubTitle)
  }

  /** Weather: the value after the colon in the second span of the weather block. */
  function Weather(doc: Doc): (r: Option<string>)
    ensures r.None? <==> WeatherSpan(2) !in doc.texts || doc.texts[WeatherSpan(2)] == ""
    ensures r.Some? ==> r.value == Partition(doc.texts[WeatherSpan(2)], LabelSeparator).2
  {
    AfterColon(GetText(doc, WeatherSpan(2)))
  }

  /** Temperature: read from the second span, the same one as the weather. */
  function Temperature(doc: Doc): (r: Option<string>)
    ensures r.None? <==> WeatherSpan(2) !in doc.texts || doc.texts[WeatherSpan(2)] == ""
    ensures r.Some? ==> r.value == Partition(doc.texts[WeatherSpan(2)], LabelSeparator).2
  {
    AfterColon(GetText(doc, WeatherSpan(2)))
  }

  /** Humidity: the value after the colon in the third span. */
  function Humidity(doc: Doc): (r: Option<string>)
    ensures r.None? <==> WeatherSpan(3) !in doc.texts || doc.texts[WeatherSpan(3)] == ""
    ensures r.Some? ==> r.value == Partition(doc.texts[WeatherSpan(3)], LabelSeparator).2
  {
    AfterColon(GetText(doc, WeatherSpan(3)))
  }

  /** Pavement temperature: the value after the colon in the fourth span. */
  function PavementTemperature(doc: Doc): (r: Option<string>)
    ensures r.None? <==> WeatherSpan(4) !in doc.texts || doc.texts[WeatherSpan(4)] == ""
    ensures r.Some? ==> r.value == Partition(doc.texts[WeatherSpan(4)], LabelSeparator).2
  {
    AfterColon(GetText(doc, WeatherSpan(4)))
  }

  /** Track condition: the fifth span's text unchanged, with no label split. */
  function TrackCondition(doc: Doc): (r: Option<string>)
    ensures r.Some? <==> WeatherSpan(5) in doc.texts
    ensures r.Some? ==> r.value == doc.texts[WeatherSpan(5)]
  {
    GetText(doc, WeatherSpan(5))
  }

  /** Weather and temperature read the same span, so they agree on every page. */
  lemma TemperatureIsWeather(doc: Doc)
    ensures Temperature(doc) == Weather(doc)
  {
  }
}
