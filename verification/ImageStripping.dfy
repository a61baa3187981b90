/** src/multimodal.rs: taking image markers out of a list of chat messages. */
module ImageStripping {
  import opened ChatMessages
  import opened Text
  import opened ImageMarkers
  import opened ImageRoundTrip
  import opened ImageMessages
  import opened ImageForming

  /** The text that stands for a message that was only images: "（此消息包含图片）". */
  const PLACEHOLDER: string :=
    "\U{ff08}\U{6b64}\U{6d88}\U{606f}\U{5305}\U{542b}\U{56fe}\U{7247}\U{ff09}"

  /** "（此消息包含 N 张图片，当前模型不支持图片识别，图片内容已忽略）". */
  function Note(count: nat): string {
    NOTE_HEAD + Decimal(count) + NOTE_TAIL
  }

  const NOTE_HEAD: string := "\U{ff08}\U{6b64}\U{6d88}\U{606f}\U{5305}\U{542b} "

  const NOTE_TAIL: string :=
    " \U{5f20}\U{56fe}\U{7247}\U{ff0c}\U{5f53}\U{524d}\U{6a21}\U{578b}\U{4e0d}\U{652f}\U{6301}"
    + "\U{56fe}\U{7247}\U{8bc6}\U{522b}\U{ff0c}\U{56fe}\U{7247}\U{5185}\U{5bb9}\U{5df2}\U{5ffd}\U{7565}\U{ff09}"

  /** A user message without its markers. */
  function Stripped(m: ChatMessage): ChatMessage {
    var p := ParseMarkers(m.content);
    m.(content := if Trim(p.text) == [] && p.refs != [] then PLACEHOLDER else p.text)
  }

  function WithNote(m: ChatMessage): ChatMessage {
    var p := ParseMarkers(m.content);
    m.(content := Trim(p.text) + "\n" + Note(|p.refs|))
  }

  predicate IsLastUser(messages: seq<ChatMessage>, i: nat) {
    && i < |messages| && messages[i].role == "user"
    && forall k | i < k < |messages| :: messages[k].role != "user"
  }

  /** `strip_history_image_markers`. */
  function StripHistory(messages: seq<ChatMessage>): seq<ChatMessage> {
    seq(|messages|, i requires 0 <= i < |messages| =>
      if messages[i].role == "user" && !IsLastUser(messages, i) then Stripped(messages[i]) else messages[i])
  }

  /** `strip_all_image_markers_with_note`. */
  function StripAll(messages: seq<ChatMessage>): seq<ChatMessage> {
    seq(|messages|, i requires 0 <= i < |messages| =>
      if messages[i].role != "user" then messages[i]
      else if IsLastUser(messages, i) && ParseMarkers(messages[i].content).refs != [] then WithNote(messages[i])
      else Stripped(messages[i]))
  }

  // ----- no image is left ----------------------------------------------------------------------------------

  /** The text of a message names no image itself. */
  predicate CleanText(m: ChatMessage) { m.role == "user" ==> Scan(TextOf(m)).refs == [] }

  lemma {:induction false} NoMarkerText(s: string)
    requires '[' !in s
    ensures Scan(s) == Parsed(s, [])
  {
    hide Scan, Trim, RunLen;
    EmptyScan();
    if s != [] {
      assert s[0] in s;
      ScanChar(s);
      assert forall c | c in s[1..] :: c in s;
      NoMarkerText(s[1..]);
    }
  }

  lemma {:induction false} NoBracketRun(s: string)
    requires ']' !in s
    ensures RunLen(s, NotBracket) == |s|
  {
    if s != [] { NoBracketRun(s[1..]); }
  }

  /** Appending text without brackets adds no reference. */
  lemma PlainTailAddsNoRefs(t: string, tail: string)
    requires '[' !in tail && ']' !in tail && NoStraddle(tail)
    ensures Scan(t + tail).refs == Scan(t).refs
  {
    hide Scan, Open, RunLen;
    NoMarkerText(tail);
    NoBracketRun(tail);
    if Open(t) {
      var x := OpenRunsOn(t, tail, |tail|);
    } else {
      ScanSplit(t, tail);
    }
  }

  lemma NoteIsPlain(count: nat)
    ensures '[' !in "\n" + Note(count) && ']' !in "\n" + Note(count)
    ensures Note(count) != [] && !IsWhitespace(Note(count)[0])
  {
    hide Decimal;
    var head, digits, tail := "\n" + NOTE_HEAD, Decimal(count), NOTE_TAIL;
    assert "\n" + Note(count) == head + digits + tail;
    assert '[' !in head && ']' !in head && '[' !in tail && ']' !in tail;
    assert forall c | c in digits :: IsDigit(c);
    assert Note(count)[0] == NOTE_HEAD[0];
  }

  lemma PlaceholderIsPlain()
    ensures '[' !in PLACEHOLDER && Trim(PLACEHOLDER) != []
  {
    assert !IsWhitespace(PLACEHOLDER[0]);
    BlankIffTrimmed(PLACEHOLDER);
  }

  /** What a stripped message still names as images is what its text names. */
  lemma StrippedRefs(m: ChatMessage)
    requires m.role == "user"
    ensures Refs(Stripped(m)) == Scan(TextOf(m)).refs
    ensures ParseMarkers(m.content).refs != [] ==> Refs(WithNote(m)) == Scan(TextOf(m)).refs
  {
    hide Scan, Trim, Note;
    var t := TextOf(m);
    TrimTwice(Scan(m.content).text);
    PlaceholderIsPlain();
    NoMarkerText(PLACEHOLDER);
    EmptyScan();
    NoteIsPlain(|ParseMarkers(m.content).refs|);
    var tail := "\n" + Note(|ParseMarkers(m.content).refs|);
    PlainTailAddsNoRefs(t, tail);
    Assoc(t, "\n", Note(|ParseMarkers(m.content).refs|));
  }

  lemma {:induction false} CountIsZero(messages: seq<ChatMessage>)
    ensures Count(messages) == 0 <==> forall i | 0 <= i < |messages| :: Refs(messages[i]) == []
  {
    hide ParseMarkers;
    if messages != [] {
      CountIsZero(messages[1..]);
      assert forall i | 1 <= i < |messages| :: messages[i] == messages[1..][i - 1];
      assert forall i | 0 <= i < |messages| - 1 :: messages[1..][i] == messages[i + 1];
    }
  }

  lemma {:induction false} ScanDropsLeading(k: string)
    ensures Scan(DropLeading(k, IsWhitespace)).refs == Scan(k).refs
  {
    hide Scan, Trim, RunLen;
    if k != [] && IsWhitespace(k[0]) {
      ScanChar(k);
      ScanDropsLeading(k[1..]);
    }
  }

  /** Blank text at the edges neither adds nor takes away an image. */
  lemma TrimKeepsRefs(k: string)
    ensures Scan(Trim(k)).refs == Scan(k).refs
  {
    hide Scan, DropLeading, DropTrailing;
    ScanDropsLeading(k);
    var d := DropLeading(k, IsWhitespace);
    var t := DropTrailing(d, IsWhitespace);
    var w := d[|t|..];
    assert t + w == d;
    assert forall i | 0 <= i < |w| :: w[i] == d[|t| + i];
    PlainTailAddsNoRefs(t, w);
  }

  /** In a user's message no image forms when its markers are taken out. */
  predicate FormsNothing(m: ChatMessage) { m.role == "user" ==> NothingForms([], m.content) }

  lemma CleanIffFormsNothing(m: ChatMessage)
    ensures CleanText(m) <==> FormsNothing(m)
  {
    hide Scan, Trim, NothingForms;
    TrimKeepsRefs(Scan(m.content).text);
    NoImageIsLeftIff(m.content);
  }

  /** After stripping every message no image is left exactly when none forms in any message. */
  lemma StripAllLeavesNoImageIff(messages: seq<ChatMessage>)
    ensures Count(StripAll(messages)) == 0 <==> forall m | m in messages :: FormsNothing(m)
  {
    hide ParseMarkers, Scan, Count, Trim, FormsNothing, TextOf;
    var r := StripAll(messages);
    CountIsZero(r);
    forall i | 0 <= i < |messages| ensures Refs(r[i]) == [] <==> FormsNothing(messages[i]) {
      CleanIffFormsNothing(messages[i]);
      if messages[i].role == "user" { StrippedRefs(messages[i]); }
    }
    assert forall i | 0 <= i < |messages| :: messages[i] in messages;
  }

  /** Stripping the history keeps every message that is not a user's and the last user message;
      the images that are left are that message's exactly when none forms in an earlier message. */
  lemma StripHistoryKeepsLastIff(messages: seq<ChatMessage>)
    ensures var r := StripHistory(messages);
      && |r| == |messages|
      && (forall i | 0 <= i < |messages| :: r[i].role == messages[i].role)
      && (forall i | 0 <= i < |messages| ::
            messages[i].role != "user" || IsLastUser(messages, i) ==> r[i] == messages[i])
      && (OnlyLastHasImages(messages, r) <==> OthersFormNothing(messages))
  {
    hide ParseMarkers, Scan, Trim, FormsNothing, TextOf;
    var r := StripHistory(messages);
    forall i | 0 <= i < |messages| && !IsLastUser(messages, i)
      ensures Refs(r[i]) == [] <==> FormsNothing(messages[i])
    {
      CleanIffFormsNothing(messages[i]);
      if messages[i].role == "user" { StrippedRefs(messages[i]); }
    }
  }

  predicate OnlyLastHasImages(messages: seq<ChatMessage>, r: seq<ChatMessage>)
    requires |r| == |messages|
  {
    forall i | 0 <= i < |messages| && !IsLastUser(messages, i) :: Refs(r[i]) == []
  }

  predicate OthersFormNothing(messages: seq<ChatMessage>) {
    forall i | 0 <= i < |messages| && !IsLastUser(messages, i) :: FormsNothing(messages[i])
  }

  /** Stripping leaves no image where every marker stands apart from what looks like one begun before. */
  lemma StripAllLeavesNoImage(messages: seq<ChatMessage>)
    requires forall m | m in messages && m.role == "user" :: MarkersStandApart([], m.content)
    ensures Count(StripAll(messages)) == 0
  {
    hide Count, StripAll, MarkersStandApart, NothingForms;
    forall m | m in messages && m.role == "user" ensures NothingForms([], m.content) {
      ApartFormsNothing([], m.content);
    }
    StripAllLeavesNoImageIff(messages);
  }

  // ----- no message is emptied ---------------------------------------------------------------------------------

  lemma {:induction false} BlankIffTrimmed(s: string)
    ensures Trim(s) == [] <==> Blank(s)
  {
    hide DropTrailing;
    LeadingIffBlank(s);
    var d := DropLeading(s, IsWhitespace);
    assert d != [] ==> !IsWhitespace(d[0]) && d != d[..0];
  }

  lemma {:induction false} LeadingIffBlank(s: string)
    ensures var d := DropLeading(s, IsWhitespace); (d == [] <==> Blank(s)) && (d != [] ==> !IsWhitespace(d[0]))
  {
    if s != [] {
      assert s == [s[0]] + s[1..];
      LeadingIffBlank(s[1..]);
    }
  }

  /** Text that names an image is not blank. */
  lemma {:induction false} RefsMakeText(s: string)
    requires Scan(s).refs != []
    ensures !Blank(s)
    decreases |s|
  {
    hide Trim, RunLen;
    if !(PREFIX <= s) {
      RefsMakeText(s[1..]);
      assert forall c | c in s[1..] :: c in s;
    } else {
      assert s[0] == '[';
      assert s[0] in s;
    }
  }

  /** Stripping empties no message and fills no empty one. */
  lemma StrippingKeepsBlankness(messages: seq<ChatMessage>, i: nat)
    requires i < |messages|
    ensures Blank(StripHistory(messages)[i].content) <==> Blank(messages[i].content)
    ensures Blank(StripAll(messages)[i].content) <==> Blank(messages[i].content)
  {
    hide Scan, Trim, Note;
    var m := messages[i];
    StrippedBlankness(m);
    NoteIsPlain(|ParseMarkers(m.content).refs|);
    var t, note := Trim(TextOf(m)) + "\n", Note(|ParseMarkers(m.content).refs|);
    assert (t + note)[|t|] == note[0];
    if ParseMarkers(m.content).refs != [] { RefsMakeText(m.content); }
  }

  lemma StrippedBlankness(m: ChatMessage)
    ensures Blank(Stripped(m).content) <==> Blank(m.content)
  {
    hide Scan, Trim;
    PlaceholderIsPlain();
    BlankIffTrimmed(PLACEHOLDER);
    BlankIffTrimmed(m.content);
    BlankIffTrimmed(TextOf(m));
    TrimTwice(m.content);
    if Scan(m.content).refs == [] { NoRefsKeepsText(m.content); } else { RefsMakeText(m.content); }
  }

  // ----- what stripping leaves of a composed message ---------------------------------------------------------

  /** Of a message composed of a faithful text and references, stripping leaves the trimmed text, or the
      placeholder when there were only images; with a note it leaves the text and a line that counts them. */
  lemma ComposedIsStripped(m: ChatMessage, text: string, us: seq<string>)
    requires CleanRefs(us) && Faithful(text, us) && m.content == Compose(text, us)
    ensures Stripped(m).role == m.role && WithNote(m).role == m.role
    ensures Stripped(m).content == if Blank(text) && us != [] then PLACEHOLDER else Trim(text)
    ensures WithNote(m).content == Trim(text) + "\n" + Note(|us|)
  {
    hide ParseMarkers, Trim, Note, Compose, Faithful, CleanRefs;
    RoundTripIff(text, us);
    TrimTwice(text);
    BlankIffTrimmed(text);
  }

  /** The note holds the count in digits between its fixed words. */
  lemma NoteCounts(count: nat)
    ensures var n := Note(count);
      && NOTE_HEAD <= n && |n| > |NOTE_HEAD| + |NOTE_TAIL| && n[|n| - |NOTE_TAIL|..] == NOTE_TAIL
      && var digits := n[|NOTE_HEAD|..|n| - |NOTE_TAIL|];
         (forall c | c in digits :: IsDigit(c)) && DigitsValue(digits) == count
  {
    hide Decimal;
    DecimalRoundTrip(count);
    var n := Note(count);
    assert n[|NOTE_HEAD|..|n| - |NOTE_TAIL|] == Decimal(count);
  }

  /** Which messages are stripped, and which gets the note: user messages only, and the last one that
      holds images keeps them in the history and gets the note otherwise. */
  lemma StrippedOnes(messages: seq<ChatMessage>, i: nat)
    requires i < |messages|
    ensures var last := messages[i].role == "user" && forall k | i < k < |messages| :: messages[k].role != "user";
      && |StripHistory(messages)| == |StripAll(messages)| == |messages|
      && (messages[i].role != "user" ==> StripHistory(messages)[i] == messages[i] == StripAll(messages)[i])
      && (last ==> StripHistory(messages)[i] == messages[i])
      && (messages[i].role == "user" && !last ==>
            StripHistory(messages)[i] == Stripped(messages[i]) == StripAll(messages)[i])
      && (last && Refs(messages[i]) != [] ==> StripAll(messages)[i] == WithNote(messages[i]))
      && (last && Refs(messages[i]) == [] ==> StripAll(messages)[i] == Stripped(messages[i]))
  {
    hide ParseMarkers, Stripped, WithNote;
  }
}
