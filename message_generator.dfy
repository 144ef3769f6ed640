/**
 * `generate_message` of ai/message_generator.py: a reach-out message built
 * from an opener chosen by how long it has been since the last contact and
 * a template chosen by tone.
 */
module MessageGenerator {
  import opened Text

  const Overdue: string := "It's been a while!"
  const CheckingIn: string := "Just checking in."
  const ThinkingOfYou: string := "Thinking of you."

  /** The opener: more than 30 days, more than 14 days, or otherwise. */
  function Opener(daysSinceContact: int): (opener: string)
    ensures opener == Overdue <==> daysSinceContact > 30
    ensures opener == CheckingIn <==> 14 < daysSinceContact <= 30
    ensures opener == ThinkingOfYou <==> daysSinceContact <= 14
  {
    if daysSinceContact > 30 then Overdue
    else if daysSinceContact > 14 then CheckingIn
    else ThinkingOfYou
  }

  /**
   * `generate_message(name, relationship, tone, days_since_contact)`: every
   * message is one template filled in: greeting, name, separator, opener,
   * closing, each fixed by the tone alone except the name and the opener.
   */
  function GenerateMessage(name: string, relationship: string, tone: string, daysSinceContact: int): (m: string)
    ensures m == Greeting(tone) + name + AfterName(tone) + Opener(daysSinceContact) + Closing(tone)
  {
    var opener := Opener(daysSinceContact);
    if tone == "warm" then "Hey " + name + ", " + opener + " I hope everything is going great."
    else if tone == "casual" then "Hey " + name + ", " + opener + " How's it going?"
    else if tone == "playful" then "Yo " + name + "! " + opener + " What\U{2019}s new?"
    else "Hi " + name + ", " + opener + " Wanted to reach out."
  }

  /** The text before the name in the template of `tone`. */
  function Greeting(tone: string): string {
    if tone == "warm" || tone == "casual" then "Hey " else if tone == "playful" then "Yo " else "Hi "
  }

  /** The text between the name and the opener in the template of `tone`. */
  function AfterName(tone: string): string {
    if tone == "playful" then "! " else ", "
  }

  /** The text after the opener in the template of `tone`. */
  function Closing(tone: string): string {
    if tone == "warm" then " I hope everything is going great."
    else if tone == "casual" then " How's it going?"
    else if tone == "playful" then " What\U{2019}s new?"
    else " Wanted to reach out."
  }

  /** Tones other than 'warm', 'casual' and 'playful' get the default template. */
  lemma DefaultTone(name: string, relationship: string, tone: string, daysSinceContact: int)
    requires tone != "warm" && tone != "casual" && tone != "playful"
    ensures GenerateMessage(name, relationship, tone, daysSinceContact)
            == "Hi " + name + ", " + Opener(daysSinceContact) + " Wanted to reach out."
  {
  }

  /** The message holds the name and the chosen opener. */
  lemma HoldsNameAndOpener(name: string, relationship: string, tone: string, daysSinceContact: int)
    ensures Contains(GenerateMessage(name, relationship, tone, daysSinceContact), name)
    ensures Contains(GenerateMessage(name, relationship, tone, daysSinceContact), Opener(daysSinceContact))
  {
    PiecesHeld(Greeting(tone), name, AfterName(tone), Opener(daysSinceContact), Closing(tone));
  }

  lemma PiecesHeld(g: string, n: string, a: string, o: string, c: string)
    ensures Contains(g + n + a + o + c, n) && Contains(g + n + a + o + c, o)
  {
    assert g + n + a + o + c == g + n + (a + o + c);
    ContainsPiece(g, n, a + o + c);
    assert g + n + a + o + c == (g + n + a) + o + c;
    ContainsPiece(g + n + a, o, c);
  }

  /** The relationship argument is never used. */
  lemma IgnoresRelationship(name: string, r1: string, r2: string, tone: string, daysSinceContact: int)
    ensures GenerateMessage(name, r1, tone, daysSinceContact) == GenerateMessage(name, r2, tone, daysSinceContact)
  {
  }

  /**
   * For one tone and one opener the message determines the name: two names
   * give the same message only if they are the same name.
   */
  lemma NameRecoverable(n1: string, n2: string, relationship: string, tone: string, d1: int, d2: int)
    requires Opener(d1) == Opener(d2)
    requires GenerateMessage(n1, relationship, tone, d1) == GenerateMessage(n2, relationship, tone, d2)
    ensures n1 == n2
  {
    var g, a, o, c := Greeting(tone), AfterName(tone), Opener(d1), Closing(tone);
    var m := g + n1 + a + o + c;
    assert |n1| == |n2|;
    assert m[|g|..|g| + |n1|] == n1;
    assert (g + n2 + a + o + c)[|g|..|g| + |n2|] == n2;
  }

  /**
   * For one name and one tone the message tells the three contact-gap bands
   * apart: equal messages mean equal openers.
   */
  lemma OpenerRecoverable(name: string, relationship: string, tone: string, d1: int, d2: int)
    requires GenerateMessage(name, relationship, tone, d1) == GenerateMessage(name, relationship, tone, d2)
    ensures Opener(d1) == Opener(d2)
  {
    var g, a, c := Greeting(tone), AfterName(tone), Closing(tone);
    var o1, o2 := Opener(d1), Opener(d2);
    var p := g + name + a;
    assert g + name + a + o1 + c == p + o1 + c;
    assert g + name + a + o2 + c == p + o2 + c;
    assert |o1| == |o2|;
    assert (p + o1 + c)[|p|..|p| + |o1|] == o1;
    assert (p + o2 + c)[|p|..|p| + |o2|] == o2;
  }
}
