/** The manual override parser (`parse_manual_fields`): each "key: value" line
    of the message text whose key is one of five known names sets that field. */
module Overrides {

  import opened Wrappers
  import opened Text

  /** The recognised keys, after `strip()` and `lower()`. */
  const Vocabulary: set<string> := {"iso", "aperture", "shutter speed", "camera model", "note"}

  /** The keys the parser stores: the `title()` of each recognised key. */
  const StoredKeys: set<string> := {"Iso", "Aperture", "Shutter Speed", "Camera Model", "Note"}

  /** `line.split(':', 1)` for a line holding a ':'. */
  function SplitAtColon(line: string): (parts: (string, string))
    requires ':' in line
    ensures parts.0 + ":" + parts.1 == line
    ensures ':' !in parts.0
  {
    var i := IndexOf(line, ':');
    assert line == line[..i] + ":" + line[i + 1..];
    (line[..i], line[i + 1..])
  }

  /** What one line contributes: the stored key and the stripped value, or
      nothing for a line without ':' or with an unrecognised key. */
  function Entry(line: string): Option<(string, string)> {
    if ':' !in line then None
    else
      var (key, val) := SplitAtColon(line);
      var keyNorm := Lower(Strip(key));
      if keyNorm in Vocabulary then Some((Title(keyNorm), Strip(val))) else None
  }

  /** The dictionary after the lines have been stored in order, a later line
      overwriting an earlier one with the same key. */
  function Collect(lines: seq<string>): map<string, string> {
    if lines == [] then map[]
    else
      var earlier := Collect(lines[..|lines| - 1]);
      var e := Entry(lines[|lines| - 1]);
      if e.Some? then earlier[e.value.0 := e.value.1] else earlier
  }

  /** The overrides `parse_manual_fields(content)` returns. */
  function ManualFields(content: string): map<string, string> {
    Collect(SplitLines(content))
  }

  /** `parse_manual_fields`: the dictionary built line by line. */
  method ParseManualFields(content: string) returns (data: map<string, string>)
    ensures data == ManualFields(content)
    ensures data.Keys <= StoredKeys
  {
    var lines := SplitLines(content);
    data := map[];
    for i := 0 to |lines|
      invariant data == Collect(lines[..i])
    {
      assert lines[..i + 1][..i] == lines[..i];
      var line := lines[i];
      if ':' !in line {
        continue;
      }
      var (key, val) := SplitAtColon(line);
      var keyNorm := Lower(Strip(key));
      if keyNorm in Vocabulary {
        data := data[Title(keyNorm) := Strip(val)];
      }
    }
    assert lines[..|lines|] == lines;
    CollectKeys(lines);
  }

  /** A line splits at its first ':'; the value keeps any later ':' and is
      only stripped. */
  lemma EntryOfKeyValueLine(key: string, val: string)
    requires ':' !in key
    ensures var keyNorm := Lower(Strip(key));
      Entry(key + ":" + val)
        == if keyNorm in Vocabulary then Some((Title(keyNorm), Strip(val))) else None
  {
    var line := key + ":" + val;
    assert line[|key|] == ':';
    assert line[..|key|] == key;
    assert line[|key| + 1..] == val;
    assert IndexOf(line, ':') == |key|;
  }

  /** `title()` of the recognised keys: "iso" becomes "Iso", not "ISO". */
  lemma TitleOfVocabulary()
    ensures Title("iso") == "Iso"
    ensures Title("aperture") == "Aperture"
    ensures Title("shutter speed") == "Shutter Speed"
    ensures Title("camera model") == "Camera Model"
    ensures Title("note") == "Note"
  {
    TitleIso();
    TitleAperture();
    TitleShutterSpeed();
    TitleCameraModel();
    TitleNote();
  }

  lemma TitleIso() ensures Title("iso") == "Iso" { TitleOfWord("iso", "Iso"); }
  lemma TitleAperture() ensures Title("aperture") == "Aperture" { TitleOfWord("aperture", "Aperture"); }
  lemma TitleNote() ensures Title("note") == "Note" { TitleOfWord("note", "Note"); }

  lemma TitleShutterSpeed() ensures Title("shutter speed") == "Shutter Speed" {
    TitleOfTwoWords("shutter speed", "shutter", "speed", "Shutter Speed");
  }

  lemma TitleCameraModel() ensures Title("camera model") == "Camera Model" {
    TitleOfTwoWords("camera model", "camera", "model", "Camera Model");
  }

  lemma TitleOfWord(w: string, t: string)
    requires w != [] && IsLowerWord(w) && t == [UpperChar(w[0])] + w[1..]
    ensures Title(w) == t
  {
    TitleAfterLowerWord(w);
  }

  lemma TitleOfTwoWords(w: string, a: string, b: string, t: string)
    requires w == a + " " + b
    requires a != [] && b != [] && IsLowerWord(a) && IsLowerWord(b)
    requires t == [UpperChar(a[0])] + a[1..] + " " + [UpperChar(b[0])] + b[1..]
    ensures Title(w) == t
  {
    TitleTwoWords(a, b);
  }

  /** Only the five title-cased keys are ever stored. */
  lemma EntryKey(line: string)
    ensures Entry(line).Some? ==> Entry(line).value.0 in StoredKeys
  {
    if Entry(line).Some? {
      var (key, val) := SplitAtColon(line);
      TitleInStoredKeys(Lower(Strip(key)));
    }
  }

  lemma TitleInStoredKeys(w: string)
    requires w in Vocabulary
    ensures Title(w) in StoredKeys
  {
    TitleOfVocabulary();
  }

  lemma {:induction false} CollectKeys(lines: seq<string>)
    ensures Collect(lines).Keys <= StoredKeys
  {
    if lines != [] {
      CollectKeys(lines[..|lines| - 1]);
      EntryKey(lines[|lines| - 1]);
    }
  }

  /** Whatever the text, no override is stored under "ISO". */
  lemma NoUpperCaseIsoKey(content: string)
    ensures "ISO" !in ManualFields(content)
  {
    CollectKeys(SplitLines(content));
    assert "ISO" !in StoredKeys by {
      assert "ISO"[1] != "Iso"[1];
    }
  }

  /** A line whose key is in the vocabulary sets that key, whatever came before. */
  lemma LaterLineOverwrites(lines: seq<string>, line: string, k: string, v: string)
    requires Entry(line) == Some((k, v))
    ensures Collect(lines + [line]) == Collect(lines)[k := v]
  {
    assert (lines + [line])[..|lines|] == lines;
  }

  /** A line without ':' or with an unrecognised key changes nothing. */
  lemma IgnoredLineKeepsFields(lines: seq<string>, line: string)
    requires Entry(line).None?
    ensures Collect(lines + [line]) == Collect(lines)
  {
    assert (lines + [line])[..|lines|] == lines;
  }

  /** Line `line` stores an override under `k`. */
  predicate Defines(line: string, k: string) {
    Entry(line).Some? && Entry(line).value.0 == k
  }

  /** The index of the last line that defines `k`, or -1 when none does. */
  function LastDefinition(lines: seq<string>, k: string): (i: int)
    ensures -1 <= i < |lines|
    ensures i >= 0 ==> Defines(lines[i], k)
    ensures forall j :: i < j < |lines| ==> !Defines(lines[j], k)
  {
    if lines == [] then -1
    else if Defines(lines[|lines| - 1], k) then |lines| - 1
    else
      var i := LastDefinition(lines[..|lines| - 1], k);
      assert forall j :: 0 <= j < |lines| - 1 ==> lines[..|lines| - 1][j] == lines[j];
      i
  }

  /** A key is present exactly when some line defines it, and its value is
      the one the last such line gives. */
  lemma {:induction false} LastLineWins(lines: seq<string>, k: string)
    ensures k in Collect(lines) <==> LastDefinition(lines, k) >= 0
    ensures k in Collect(lines) ==> Entry(lines[LastDefinition(lines, k)]) == Some((k, Collect(lines)[k]))
  {
    if lines != [] {
      var n := |lines| - 1;
      var init := lines[..n];
      LastLineWins(init, k);
      if !Defines(lines[n], k) {
        var i := LastDefinition(init, k);
        assert i >= 0 ==> lines[i] == init[i];
      }
    }
  }

  predicate NoBreaks(s: string) {
    forall k :: 0 <= k < |s| ==> !IsLineBreak(s[k])
  }

  /** `key` needs no stripping, holds no ':' and lower-cases to the recognised
      key `keyNorm`, whose title is `stored`. */
  predicate KnownKey(key: string, keyNorm: string, stored: string) {
    ':' !in key && Strip(key) == key && Lower(key) == keyNorm
    && keyNorm in Vocabulary && Title(keyNorm) == stored
  }

  /** A line whose key is known stores the stripped value under that key's
      title. */
  lemma KnownKeyEntry(key: string, keyNorm: string, stored: string, v: string)
    requires KnownKey(key, keyNorm, stored)
    ensures Entry(key + ":" + v) == Some((stored, Strip(v)))
  {
    EntryOfKeyValueLine(key, v);
  }

  lemma Unpadded(key: string)
    requires key != [] && !IsSpace(key[0]) && !IsSpace(key[|key| - 1])
    ensures Strip(key) == key
  {
    StripPadded("", key);
    assert "" + key == key;
  }

  lemma IsoStripped() ensures Strip("ISO") == "ISO" { Unpadded("ISO"); }
  lemma ApertureStripped() ensures Strip("Aperture") == "Aperture" { Unpadded("Aperture"); }
  lemma NoteStripped() ensures Strip("Note") == "Note" { Unpadded("Note"); }
  lemma FooStripped() ensures Strip("foo") == "foo" { Unpadded("foo"); }

  lemma IsoLowered() ensures Lower("ISO") == "iso" {
    assert LowerChar('I') == 'i' && LowerChar('S') == 's' && LowerChar('O') == 'o';
  }
  lemma ApertureLowered() ensures Lower("Aperture") == "aperture" { assert LowerChar('A') == 'a'; }
  lemma NoteLowered() ensures Lower("Note") == "note" { assert LowerChar('N') == 'n'; }
  lemma FooLowered() ensures Lower("foo") == "foo" { }

  lemma KeysRecognised()
    ensures "iso" in Vocabulary && "aperture" in Vocabulary && "note" in Vocabulary
    ensures "foo" !in Vocabulary
  {
  }

  lemma FooKey(v: string) ensures Entry("foo" + ":" + v) == None {
    FooStripped();
    FooLowered();
    KeysRecognised();
    EntryOfKeyValueLine("foo", v);
  }

  lemma IsoKnown() ensures KnownKey("ISO", "iso", "Iso") {
    IsoStripped();
    IsoLowered();
    KeysRecognised();
    TitleIso();
  }

  lemma EntryIso(v: string)
    ensures Entry("ISO" + ":" + v) == Some(("Iso", Strip(v)))
  {
    IsoKnown();
    KnownKeyEntry("ISO", "iso", "Iso", v);
  }

  lemma ApertureKnown() ensures KnownKey("Aperture", "aperture", "Aperture") {
    ApertureStripped();
    ApertureLowered();
    KeysRecognised();
    TitleAperture();
  }

  lemma EntryAperture(v: string)
    ensures Entry("Aperture" + ":" + v) == Some(("Aperture", Strip(v)))
  {
    ApertureKnown();
    KnownKeyEntry("Aperture", "aperture", "Aperture", v);
  }

  lemma NoteKnown() ensures KnownKey("Note", "note", "Note") {
    NoteStripped();
    NoteLowered();
    KeysRecognised();
    TitleNote();
  }

  lemma EntryNote(v: string)
    ensures Entry("Note" + ":" + v) == Some(("Note", Strip(v)))
  {
    NoteKnown();
    KnownKeyEntry("Note", "note", "Note", v);
  }

  lemma KeyValueNoBreaks(key: string, v: string)
    requires NoBreaks(key) && NoBreaks(v)
    ensures NoBreaks(key + ":" + v)
  {
    var line := key + ":" + v;
    assert forall k :: 0 <= k < |line| ==> line[k] == (if k < |key| then key[k] else if k == |key| then ':' else v[k - |key| - 1]);
  }

  lemma LiteralKeysNoBreaks()
    ensures NoBreaks("ISO") && NoBreaks("foo") && NoBreaks("Aperture") && NoBreaks("Note")
  {
  }

  lemma TwoLines(l1: string, l2: string)
    requires NoBreaks(l1) && NoBreaks(l2) && l2 != []
    ensures SplitLines(l1 + "\n" + l2) == [l1, l2]
  {
    SplitLinesSingle(l2);
    SplitLinesCons(l1, l2);
  }

  lemma JoinRight(a: string, r: string, b: string, c: string)
    requires r == b + "\n" + c
    ensures a + "\n" + b + "\n" + c == a + "\n" + r
  {
  }

  lemma ThreeLines(l1: string, l2: string, l3: string)
    requires NoBreaks(l1) && NoBreaks(l2) && NoBreaks(l3) && l3 != []
    ensures SplitLines(l1 + "\n" + l2 + "\n" + l3) == [l1, l2, l3]
  {
    TwoLines(l2, l3);
    SplitLinesCons(l1, l2 + "\n" + l3);
    JoinRight(l1, l2 + "\n" + l3, l2, l3);
  }

  lemma CollectOne(l1: string, k1: string, v1: string)
    requires Entry(l1) == Some((k1, v1))
    ensures Collect([l1]) == map[k1 := v1]
  {
    assert [l1][..0] == [];
  }

  lemma PairDisplay(s: seq<string>, l1: string, l2: string)
    requires s == [l1] + [l2]
    ensures s == [l1, l2]
  {
  }

  lemma TripleDisplay(s: seq<string>, l1: string, l2: string, l3: string)
    requires s == [l1] + [l2] + [l3]
    ensures s == [l1, l2, l3]
  {
  }

  lemma CollectTwo(l1: string, l2: string, k1: string, v1: string, k2: string, v2: string)
    requires Entry(l1) == Some((k1, v1)) && Entry(l2) == Some((k2, v2))
    ensures Collect([l1, l2]) == map[k1 := v1][k2 := v2]
  {
    CollectOne(l1, k1, v1);
    LaterLineOverwrites([l1], l2, k2, v2);
    PairDisplay([l1] + [l2], l1, l2);
  }

  lemma CollectThree(l1: string, l2: string, l3: string, k1: string, v1: string, k3: string, v3: string)
    requires Entry(l1) == Some((k1, v1)) && Entry(l2).None? && Entry(l3) == Some((k3, v3))
    ensures Collect([l1, l2, l3]) == map[k1 := v1][k3 := v3]
  {
    CollectOne(l1, k1, v1);
    IgnoredLineKeepsFields([l1], l2);
    LaterLineOverwrites([l1] + [l2], l3, k3, v3);
    TripleDisplay([l1] + [l2] + [l3], l1, l2, l3);
  }

  /** Three lines "ISO:a", "foo:b", "Aperture:c" give exactly the ISO and
      aperture overrides, stripped and stored under "Iso" and "Aperture"; the
      unknown key "foo" leaves nothing. For instance a = " 400", b = " bar",
      c = "f/2.8" give {"Iso": "400", "Aperture": "f/2.8"}. */
  lemma ThreeLineExample(a: string, b: string, c: string)
    requires NoBreaks(a) && NoBreaks(b) && NoBreaks(c)
    ensures ManualFields("ISO" + ":" + a + "\n" + ("foo" + ":" + b) + "\n" + ("Aperture" + ":" + c))
      == map["Iso" := Strip(a), "Aperture" := Strip(c)]
  {
    var l1, l2, l3 := "ISO" + ":" + a, "foo" + ":" + b, "Aperture" + ":" + c;
    LiteralKeysNoBreaks();
    KeyValueNoBreaks("ISO", a);
    KeyValueNoBreaks("foo", b);
    KeyValueNoBreaks("Aperture", c);
    ThreeLines(l1, l2, l3);
    EntryIso(a);
    FooKey(b);
    EntryAperture(c);
    CollectThree(l1, l2, l3, "Iso", Strip(a), "Aperture", Strip(c));
  }

  lemma Overwrite(m: map<string, string>, k: string, v1: string, v2: string)
    requires m == map[k := v1][k := v2]
    ensures m == map[k := v2]
  {
  }

  /** Two lines that store under the same key leave only the second value. */
  lemma SameKeyTwice(l1: string, l2: string, k: string, v1: string, v2: string)
    requires Entry(l1) == Some((k, v1)) && Entry(l2) == Some((k, v2))
    ensures Collect([l1, l2]) == map[k := v2]
  {
    CollectTwo(l1, l2, k, v1, k, v2);
    Overwrite(Collect([l1, l2]), k, v1, v2);
  }

  /** Of two "Note" lines the second wins. */
  lemma RepeatedKeyExample(a: string, b: string)
    requires NoBreaks(a) && NoBreaks(b)
    ensures ManualFields("Note" + ":" + a + "\n" + ("Note" + ":" + b)) == map["Note" := Strip(b)]
  {
    var l1, l2 := "Note" + ":" + a, "Note" + ":" + b;
    LiteralKeysNoBreaks();
    KeyValueNoBreaks("Note", a);
    KeyValueNoBreaks("Note", b);
    TwoLines(l1, l2);
    EntryNote(a);
    EntryNote(b);
    SameKeyTwice(l1, l2, "Note", Strip(a), Strip(b));
  }
}
