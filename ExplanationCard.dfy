/**
 * The two strings the explanation card builds from the displayed record:
 * the plain-text copy placed on the clipboard, and the text sent to the
 * speech service together with the record's own level.
 */
module ExplanationCard {
  import opened Wrappers
  import opened Types
  import opened GeminiService

  /** The clipboard text for a record. It shows the raw enum value of the level. */
  function CopyText(d: Record): string {
    "ELI5: " + d.topic + "\n\nLevel: " + LevelValue(d.level) + "\nDefinition: " + d.definition
      + "\nAnalogy: " + d.analogy + "\nKey Takeaway: " + d.takeaway
  }

  /** `s.split('\n')`: the pieces between line feeds, so there is always at least one. */
  function Lines(s: string): (r: seq<string>)
    ensures |r| >= 1
  {
    if s == [] then [""]
    else if s[0] == '\n' then [""] + Lines(s[1..])
    else var t := Lines(s[1..]); [[s[0]] + t[0]] + t[1..]
  }

  lemma {:induction false} LinesOfLine(a: string)
    requires '\n' !in a
    ensures Lines(a) == [a]
  {
    if a != [] {
      assert a[0] in a;
      LinesOfLine(a[1..]);
      assert [a[0]] + a[1..] == a;
    }
  }

  lemma {:induction false} LinesOfJoin(a: string, b: string)
    requires '\n' !in a
    ensures Lines(a + "\n" + b) == [a] + Lines(b)
  {
    if a == [] {
      assert a + "\n" + b == "\n" + b;
      assert ("\n" + b)[1..] == b;
    } else {
      assert a[0] in a;
      assert (a + "\n" + b)[1..] == a[1..] + "\n" + b;
      LinesOfJoin(a[1..], b);
      assert [a[0]] + a[1..] == a;
    }
  }

  /**
   * When the fields hold no line feed, the copy text is exactly six lines:
   * the topic, a blank line, the level's enum value, the definition, the
   * analogy and the takeaway, each behind its label. No line carries the
   * example, the id, the timestamp or the favorite flag.
   */
  lemma CopyTextLines(d: Record)
    requires '\n' !in d.topic && '\n' !in d.definition && '\n' !in d.analogy && '\n' !in d.takeaway
    ensures Lines(CopyText(d)) == [
      "ELI5: " + d.topic,
      "",
      "Level: " + LevelValue(d.level),
      "Definition: " + d.definition,
      "Analogy: " + d.analogy,
      "Key Takeaway: " + d.takeaway]
  {
    LabelledLine("ELI5: ", d.topic);
    LabelledLine("Level: ", LevelValue(d.level));
    LabelledLine("Definition: ", d.definition);
    LabelledLine("Analogy: ", d.analogy);
    LabelledLine("Key Takeaway: ", d.takeaway);
    CopyTextShape(d);
    LinesOfSix("ELI5: " + d.topic, "Level: " + LevelValue(d.level), "Definition: " + d.definition,
      "Analogy: " + d.analogy, "Key Takeaway: " + d.takeaway);
  }

  /** Five lines without line feeds, joined with a blank line after the first, split back apart. */
  lemma LinesOfSix(l1: string, l3: string, l4: string, l5: string, l6: string)
    requires '\n' !in l1 && '\n' !in l3 && '\n' !in l4 && '\n' !in l5 && '\n' !in l6
    ensures Lines(l1 + "\n" + ("" + "\n" + (l3 + "\n" + (l4 + "\n" + (l5 + "\n" + l6))))) == [l1, "", l3, l4, l5, l6]
  {
    var t5 := l5 + "\n" + l6;
    var t4 := l4 + "\n" + t5;
    var t3 := l3 + "\n" + t4;
    var t2 := "" + "\n" + t3;
    LinesOfLine(l6);
    LinesOfJoin(l5, l6);
    LinesOfJoin(l4, t5);
    LinesOfJoin(l3, t4);
    LinesOfJoin("", t3);
    LinesOfJoin(l1, t2);
  }

  /** The copy text regrouped line by line. */
  lemma CopyTextShape(d: Record)
    ensures CopyText(d) == ("ELI5: " + d.topic) + "\n" + ("" + "\n" + (("Level: " + LevelValue(d.level)) + "\n" + (("Definition: " + d.definition) + "\n" + (("Analogy: " + d.analogy) + "\n" + ("Key Takeaway: " + d.takeaway)))))
  {
    SplitLiterals();
    Regroup("ELI5: " + d.topic, "\n", "", "Level: ", LevelValue(d.level), "Definition: ", d.definition, "Analogy: ", d.analogy, "Key Takeaway: ", d.takeaway);
  }

  /** The separators of the template, each split at its line feeds. */
  lemma SplitLiterals()
    ensures "\n\nLevel: " == "\n" + ("" + "\n" + "Level: ")
    ensures "\nDefinition: " == "\n" + "Definition: "
    ensures "\nAnalogy: " == "\n" + "Analogy: "
    ensures "\nKey Takeaway: " == "\n" + "Key Takeaway: "
  {
  }

  /** Concatenation regrouped to one line per step, over arbitrary strings. */
  lemma Regroup(l1: string, n: string, e: string, tl: string, lv: string, td: string, def: string, ta: string, an: string, tk: string, tt: string)
    ensures l1 + (n + (e + n + tl)) + lv + (n + td) + def + (n + ta) + an + (n + tk) + tt
         == l1 + n + (e + n + ((tl + lv) + n + ((td + def) + n + ((ta + an) + n + (tk + tt)))))
  {
  }

  lemma LabelledLine(tag: string, field: string)
    requires '\n' !in tag && '\n' !in field
    ensures '\n' !in tag + field
  {
  }

  /** The copy text depends only on the topic, level, definition, analogy and takeaway. */
  lemma CopyTextIgnoresOtherFields(d: Record, example: string, id: string, timestamp: int, isFavorite: Option<bool>)
    ensures CopyText(d.(example := example, id := id, timestamp := timestamp, isFavorite := isFavorite)) == CopyText(d)
  {
  }

  /** The text the listen button reads out. */
  function SpeechText(d: Record): string {
    d.definition + ". For example, " + d.example
  }

  /** The speech request the listen button issues for the displayed record. */
  function PlayAudio(d: Record): (c: SpeechCall)
    ensures c.prompt == "Read this explanation: " + d.definition + ". For example, " + d.example
    ensures c.voice == "Puck" <==> d.level == Eli5
    ensures c.voice == "Kore" <==> d.level != Eli5
  {
    SpeechRequest(SpeechText(d), d.level)
  }
}
