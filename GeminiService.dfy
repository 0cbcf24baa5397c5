/**
 * The pure parts of the service layer: how a finished record is assembled
 * from the parsed reply, how its id is formed from a clock reading and the
 * topic, which voice reads an explanation aloud, and the byte-copy loop
 * that turns a decoded base64 string into a byte buffer.
 */
module GeminiService {
  import opened Wrappers
  import opened Types
  import opened Text

  // ---------------------------------------------------------------------
  // The id slug: `topic.replace(/\s+/g, '-').toLowerCase()`
  // ---------------------------------------------------------------------

  /** `s.replace(/\s+/g, '-')`: every maximal run of white space becomes one `-`. */
  function DashRuns(s: string): (r: string)
    ensures NoSpace(r)
    ensures |r| <= |s|
    decreases |s|
  {
    if s == [] then []
    else if IsSpace(s[0]) then
      var rest := TrimStart(s);
      assert rest != s;
      "-" + DashRuns(rest)
    else [s[0]] + DashRuns(s[1..])
  }

  /** Text without white space is left as it is. */
  lemma {:induction false} DashRunsOfNoSpace(s: string)
    requires NoSpace(s)
    ensures DashRuns(s) == s
  {
    if s != [] {
      DashRunsOfNoSpace(s[1..]);
    }
  }

  /**
   * A word, then a run of white space, then text that starts with a
   * non-space: the word is kept and the whole run becomes a single dash.
   */
  lemma {:induction false} DashRunsWordThenRun(a: string, w: string, b: string)
    requires NoSpace(a)
    requires w != [] && IsBlank(w)
    requires b == [] || !IsSpace(b[0])
    ensures DashRuns(a + w + b) == a + "-" + DashRuns(b)
  {
    if a == [] {
      assert a + w + b == w + b;
      DashRunsOfRun(w, b);
    } else {
      DashRunsWordThenRun(a[1..], w, b);
      HeadSplit(a, w, b);
      DashRunsOfWordChar(a[0], a[1..] + w + b);
      HeadSplit(a, "-", DashRuns(b));
    }
  }

  /** Concatenation regrouped around the first character of a non-empty string. */
  lemma HeadSplit(a: string, u: string, v: string)
    requires a != []
    ensures a + u + v == [a[0]] + (a[1..] + u + v)
  {
  }

  /** A leading non-space character is kept. */
  lemma DashRunsOfWordChar(c: char, s: string)
    requires !IsSpace(c)
    ensures DashRuns([c] + s) == [c] + DashRuns(s)
  {
    assert ([c] + s)[1..] == s;
  }

  /** A leading run of white space becomes one dash. */
  lemma DashRunsOfRun(w: string, b: string)
    requires w != [] && IsBlank(w)
    requires b == [] || !IsSpace(b[0])
    ensures DashRuns(w + b) == "-" + DashRuns(b)
  {
    TrimStartBlankPrefix(w, b);
    assert (w + b)[0] == w[0];
  }

  /** Replacing runs twice changes nothing more. */
  lemma DashRunsIdempotent(s: string)
    ensures DashRuns(DashRuns(s)) == DashRuns(s)
  {
    DashRunsOfNoSpace(DashRuns(s));
  }

  /** The topic part of an id. */
  function Slug(topic: string): (r: string)
    ensures NoSpace(r)
    ensures |r| <= |topic|
  {
    LowerShape(DashRuns(topic));
    Lower(DashRuns(topic))
  }

  // ---------------------------------------------------------------------
  // The id: `${Date.now()}-${slug}`
  // ---------------------------------------------------------------------

  predicate IsDigit(c: char) {
    '0' <= c <= '9'
  }

  function DigitChar(d: nat): (c: char)
    requires d < 10
    ensures IsDigit(c)
  {
    ('0' as int + d) as char
  }

  /** The decimal digits of a natural number, most significant first, without leading zeros. */
  function NatDigits(n: nat): (r: string)
    ensures r != []
    ensures forall i :: 0 <= i < |r| ==> IsDigit(r[i])
    ensures n > 0 ==> r[0] != '0'
  {
    if n < 10 then [DigitChar(n)] else NatDigits(n / 10) + [DigitChar(n % 10)]
  }

  /** The number a string of decimal digits denotes. */
  function DigitsValue(s: string): nat
    requires forall i :: 0 <= i < |s| ==> IsDigit(s[i])
  {
    if s == [] then 0
    else
      assert IsDigit(s[|s| - 1]);
      DigitsValue(s[..|s| - 1]) * 10 + (s[|s| - 1] as int - '0' as int)
  }

  /** Reading the digits back gives the number. */
  lemma {:induction false} NatDigitsRoundTrip(n: nat)
    ensures DigitsValue(NatDigits(n)) == n
  {
    if n >= 10 {
      var r := NatDigits(n);
      assert r[..|r| - 1] == NatDigits(n / 10);
      NatDigitsRoundTrip(n / 10);
    }
  }

  /** A JavaScript integer converted to text in a template literal. */
  function IntText(n: int): (r: string)
    ensures n >= 0 ==> r == NatDigits(n)
    ensures n < 0 ==> r == "-" + NatDigits(-n)
  {
    if n < 0 then "-" + NatDigits(-n) else NatDigits(n)
  }

  /** The id of a record created for `topic` when the clock read `now`. */
  function MakeId(now: int, topic: string): (id: string)
  {
    IntText(now) + "-" + Slug(topic)
  }

  /** Splits a string at its first `-`: the part before it and the part after it. */
  function SplitAtDash(s: string): (p: (string, string))
    ensures '-' !in p.0
  {
    if s == [] then ([], [])
    else if s[0] == '-' then ([], s[1..])
    else var (h, t) := SplitAtDash(s[1..]); ([s[0]] + h, t)
  }

  lemma {:induction false} SplitAtDashOfJoin(a: string, b: string)
    requires '-' !in a
    ensures SplitAtDash(a + "-" + b) == (a, b)
  {
    if a != [] {
      assert a[0] in a;
      assert (a + "-" + b)[1..] == a[1..] + "-" + b;
      SplitAtDashOfJoin(a[1..], b);
      assert (a + "-" + b)[0] == a[0] && [a[0]] + a[1..] == a;
    }
  }

  /**
   * For a clock reading at or after the epoch, an id splits at its first
   * dash into the reading's decimal digits and the topic's slug, and the
   * digits read back as the clock reading.
   */
  lemma MakeIdParts(now: nat, topic: string)
    ensures SplitAtDash(MakeId(now, topic)) == (NatDigits(now), Slug(topic))
    ensures DigitsValue(SplitAtDash(MakeId(now, topic)).0) == now
    ensures NoSpace(SplitAtDash(MakeId(now, topic)).1)
  {
    var d := NatDigits(now);
    assert '-' !in d;
    SplitAtDashOfJoin(d, Slug(topic));
    NatDigitsRoundTrip(now);
  }

  // ---------------------------------------------------------------------
  // Record assembly
  // ---------------------------------------------------------------------

  /**
   * The reply of the text service after `JSON.parse`: the four required
   * text fields, and any fields the reply happens to carry under the names
   * of record fields (absent ones are `None`).
   */
  datatype Payload = Payload(
    definition: string,
    analogy: string,
    example: string,
    takeaway: string,
    topic: Option<string>,
    level: Option<string>,
    id: Option<string>,
    timestamp: Option<int>,
    isFavorite: Option<bool>)

  /**
   * `{ ...parsed, topic, level, id, timestamp }`. `idClock` and `timeClock`
   * are the two separate clock readings taken for the id and the timestamp.
   */
  function AssembleRecord(parsed: Payload, topic: string, level: Level, idClock: int, timeClock: int): (r: Record)
    ensures r.topic == topic && r.level == level
    ensures r.timestamp == timeClock
    ensures r.id == MakeId(idClock, topic)
    ensures r.definition == parsed.definition && r.analogy == parsed.analogy
    ensures r.example == parsed.example && r.takeaway == parsed.takeaway
    ensures r.isFavorite == parsed.isFavorite
  {
    Record(
      id := MakeId(idClock, topic),
      definition := parsed.definition,
      analogy := parsed.analogy,
      example := parsed.example,
      takeaway := parsed.takeaway,
      topic := topic,
      level := level,
      timestamp := timeClock,
      isFavorite := parsed.isFavorite)
  }

  /**
   * The fields written after the spread win: whatever the reply says under
   * `topic`, `level`, `id` or `timestamp` has no effect on the record.
   */
  lemma AssembleRecordOverridesParsed(p: Payload, q: Payload, topic: string, level: Level, idClock: int, timeClock: int)
    requires p.definition == q.definition && p.analogy == q.analogy
    requires p.example == q.example && p.takeaway == q.takeaway
    requires p.isFavorite == q.isFavorite
    ensures AssembleRecord(p, topic, level, idClock, timeClock) == AssembleRecord(q, topic, level, idClock, timeClock)
  {
  }

  // ---------------------------------------------------------------------
  // Speech
  // ---------------------------------------------------------------------

  /** The voice that reads an explanation at `level`. */
  function Voice(level: Level): (v: string)
    ensures v == "Puck" <==> level == Eli5
    ensures v == "Kore" <==> level != Eli5
  {
    if level == Eli5 then "Puck" else "Kore"
  }

  /** What the speech service is asked for: the prompt text and the voice. */
  datatype SpeechCall = SpeechCall(prompt: string, voice: string)

  /** The request `generateSpeech(text, level)` sends. */
  function SpeechRequest(text: string, level: Level): (c: SpeechCall)
    ensures c.prompt == "Read this explanation: " + text
    ensures c.voice == Voice(level)
  {
    SpeechCall("Read this explanation: " + text, Voice(level))
  }

  // ---------------------------------------------------------------------
  // decodeBase64: the byte-copy loop after `atob`
  // ---------------------------------------------------------------------

  newtype byte = x: int | 0 <= x < 256

  /** Storing a number into a `Uint8Array` element keeps it modulo 256. */
  function ToUint8(n: int): (b: byte)
    ensures 0 <= n < 256 ==> b as int == n
    ensures (n - b as int) % 256 == 0
  {
    (n % 256) as byte
  }

  /** A decoded binary string as `atob` returns it: one character per byte. */
  predicate IsBinaryString(s: string) {
    forall i :: 0 <= i < |s| ==> s[i] as int < 256
  }

  /** The bytes the copy loop stores: the code of each character, as a `Uint8Array` keeps it. */
  function Decoded(binary: string): (r: seq<byte>)
    ensures |r| == |binary|
    ensures IsBinaryString(binary) ==> forall i :: 0 <= i < |binary| ==> r[i] as int == binary[i] as int
  {
    if binary == [] then [] else [ToUint8(binary[0] as int)] + Decoded(binary[1..])
  }

  lemma {:induction false} DecodedAt(binary: string, i: nat)
    requires i < |binary|
    ensures Decoded(binary)[i] == ToUint8(binary[i] as int)
  {
    if i > 0 {
      DecodedAt(binary[1..], i - 1);
    }
  }

  /** The binary string whose character codes are the given bytes (`String.fromCharCode`). */
  function BinaryString(bytes: seq<byte>): (s: string)
    ensures |s| == |bytes|
    ensures IsBinaryString(s)
  {
    if bytes == [] then [] else [bytes[0] as int as char] + BinaryString(bytes[1..])
  }

  /** Decoding the binary string of some bytes gives those bytes back. */
  lemma {:induction false} DecodedOfBinaryString(bytes: seq<byte>)
    ensures Decoded(BinaryString(bytes)) == bytes
  {
    if bytes != [] {
      assert BinaryString(bytes)[1..] == BinaryString(bytes[1..]);
      DecodedOfBinaryString(bytes[1..]);
    }
  }

  /** A binary string is the binary string of its decoded bytes. */
  lemma {:induction false} BinaryStringOfDecoded(binary: string)
    requires IsBinaryString(binary)
    ensures BinaryString(Decoded(binary)) == binary
  {
    if binary != [] {
      assert Decoded(binary)[1..] == Decoded(binary[1..]);
      BinaryStringOfDecoded(binary[1..]);
    }
  }

  /**
   * `decodeBase64` after `atob` has produced `binary`: a fresh buffer of
   * the string's length, filled index by index with the character codes.
   */
  method DecodeBase64(binary: string) returns (bytes: array<byte>)
    ensures fresh(bytes)
    ensures bytes.Length == |binary|
    ensures bytes[..] == Decoded(binary)
  {
    bytes := new byte[|binary|];
    for i := 0 to |binary|
      invariant forall k :: 0 <= k < i ==> bytes[k] == ToUint8(binary[k] as int)
    {
      bytes[i] := ToUint8(binary[i] as int);
    }
    forall k | 0 <= k < |binary| ensures bytes[..][k] == Decoded(binary)[k] {
      DecodedAt(binary, k);
    }
  }
}
