/** leader-app/components/welcomePage.jsx: the greeting on the welcome screen. The current
    hour is a parameter here; the greeting is two lines, the name and a phrase for the
    part of the day, and the screen splits it at the line break to style the two parts. */
module WelcomePage {
  import opened JsBuiltins

  const Hello: string := "שלום "
  const GoodMorning: string := "בוקר טוב"
  const GoodAfternoon: string := "צהריים טובים"
  const GoodEvening: string := "ערב טוב"
  const GoodNight: string := "לילה טוב"

  /** The phrase for an hour: before 12, before 17, before 21, and the rest. */
  function Phrase(hour: int): (p: string)
    ensures hour < 12 <==> p == GoodMorning
    ensures 12 <= hour < 17 <==> p == GoodAfternoon
    ensures 17 <= hour < 21 <==> p == GoodEvening
    ensures 21 <= hour <==> p == GoodNight
  {
    if hour < 12 then GoodMorning
    else if hour < 17 then GoodAfternoon
    else if hour < 21 then GoodEvening
    else GoodNight
  }

  /** `getGreeting`: the salutation with the user's name, a line break, the phrase. */
  function Greeting(hour: int, userName: string): (g: string)
    ensures var n := |Hello| + |userName|;
      |g| > n && g[..n] == Hello + userName && g[n] == '\n'
      && g[n + 1..] in {GoodMorning, GoodAfternoon, GoodEvening, GoodNight}
  {
    var g := Hello + userName + "\n" + Phrase(hour);
    assert g[|Hello| + |userName| + 1..] == Phrase(hour);
    g
  }

  /** Every hour falls in exactly one of the four parts of the day. */
  lemma OneBucketPerHour(hour: int)
    ensures |{GoodMorning, GoodAfternoon, GoodEvening, GoodNight}| == 4
    ensures Phrase(hour) in {GoodMorning, GoodAfternoon, GoodEvening, GoodNight}
  {
    assert GoodMorning[0] != GoodAfternoon[0] && GoodMorning[0] != GoodEvening[0] && GoodMorning[0] != GoodNight[0];
    assert GoodAfternoon[0] != GoodEvening[0] && GoodAfternoon[0] != GoodNight[0];
    assert GoodEvening[0] != GoodNight[0];
  }

  /** No phrase has a line break. */
  lemma PhraseOneLine(hour: int)
    ensures '\n' !in Phrase(hour)
  {
    var p := Phrase(hour);
    if hour < 12 {
      assert p == GoodMorning;
    } else if hour < 17 {
      assert p == GoodAfternoon;
    } else if hour < 21 {
      assert p == GoodEvening;
    } else {
      assert p == GoodNight;
    }
  }

  /** `getGreeting().split('\n')`: the two styled lines are the salutation with the name and
      the phrase, provided the name holds no line break. */
  lemma GreetingLines(hour: int, userName: string)
    requires '\n' !in userName
    ensures Split(Greeting(hour, userName), '\n') == [Hello + userName, Phrase(hour)]
  {
    var first := Hello + userName;
    var p := Phrase(hour);
    PhraseOneLine(hour);
    assert '\n' !in Hello;
    assert Greeting(hour, userName) == first + ['\n'] + p;
    SplitTwoPieces(first, '\n', p);
  }
}
