/** src/multimodal.rs: image markers in a list of chat messages. */
module ImageMessages {
  import opened ChatMessages
  import opened Text
  import opened ImageMarkers
  import opened ImageRoundTrip

  datatype Failure = TooManyImages(max: nat, found: nat) | BadImage(reference: string)

  datatype Prepared = Prepared(messages: seq<ChatMessage>, containsImages: bool) | Failed(why: Failure)

  /** `normalize_image_reference`: a data URI, or nothing when the image cannot be used. */
  type Normaliser = string -> Option<string>

  function Refs(m: ChatMessage): seq<string> {
    if m.role == "user" then ParseMarkers(m.content).refs else []
  }

  /** `count_image_markers`. */
  function Count(messages: seq<ChatMessage>): nat {
    if messages == [] then 0 else |Refs(messages[0])| + Count(messages[1..])
  }

  function NormalAll(refs: seq<string>, n: Normaliser): (r: Option<seq<string>>)
    ensures r.Some? ==> |r.value| == |refs| && forall i | 0 <= i < |refs| :: n(refs[i]) == Some(r.value[i])
    ensures r.None? ==> exists i | 0 <= i < |refs| :: n(refs[i]).None?
  {
    if refs == [] then Some([])
    else match (n(refs[0]), NormalAll(refs[1..], n))
      case (Some(u), Some(us)) => Some([u] + us)
      case _ => None
  }

  /** One message as the provider gets it. */
  function PreparedMessage(m: ChatMessage, n: Normaliser): Option<ChatMessage> {
    if Refs(m) == [] then Some(m)
    else match NormalAll(Refs(m), n)
      case None => None
      case Some(us) => Some(ChatMessage(m.role, Compose(ParseMarkers(m.content).text, us)))
  }

  /** The first reference that cannot be used. */
  function FirstBad(refs: seq<string>, n: Normaliser): string
    requires NormalAll(refs, n).None?
  {
    if n(refs[0]).None? then refs[0] else FirstBad(refs[1..], n)
  }

  /** `normalize_image_reference` on every reference of one message, stopping at the first failure. */
  method NormaliseRefs(refs: seq<string>, n: Normaliser) returns (uris: seq<string>, bad: Option<string>)
    ensures bad.None? <==> NormalAll(refs, n).Some?
    ensures bad.None? ==> NormalAll(refs, n) == Some(uris)
    ensures bad.Some? ==> NormalAll(refs, n).None? && bad.value == FirstBad(refs, n)
  {
    uris := [];
    var k := 0;
    while k < |refs|
      invariant 0 <= k <= |refs|
      invariant NormalAll(refs, n).Some? <==> NormalAll(refs[k..], n).Some?
      invariant NormalAll(refs, n).Some? ==> NormalAll(refs, n).value == uris + NormalAll(refs[k..], n).value
      invariant NormalAll(refs, n).None? ==> FirstBad(refs, n) == FirstBad(refs[k..], n)
    {
      assert refs[k..][0] == refs[k] && refs[k..][1..] == refs[k + 1..];
      match n(refs[k])
      case None => return uris, Some(refs[k]);
      case Some(u) =>
        uris := uris + [u];
        k := k + 1;
    }
    assert uris + [] == uris;
    bad := None;
  }

  /** `prepare_messages_for_provider`. */
  method PrepareMessages(messages: seq<ChatMessage>, maxImages: nat, n: Normaliser) returns (r: Prepared)
    ensures r.Failed? && r.why.TooManyImages? <==> Count(messages) > maxImages
    ensures r.Failed? && r.why.TooManyImages? ==> r.why == TooManyImages(maxImages, Count(messages))
    ensures r.Prepared? ==> IsPrepared(messages, r.messages, n) && (r.containsImages <==> Count(messages) > 0)
    ensures r.Failed? && r.why.BadImage? ==> exists i | 0 <= i < |messages| :: FailsAt(messages, i, n, r.why.reference)
  {
    hide ParseMarkers, NormalAll, FirstBad, Count;
    var found := Count(messages);
    if found > maxImages { return Failed(TooManyImages(maxImages, found)); }
    if found == 0 {
      NoneToPrepare(messages, n);
      return Prepared(messages, false);
    }
    var prepared := [];
    for i := 0 to |messages|
      invariant |prepared| == i && forall k | 0 <= k < i :: PreparedMessage(messages[k], n) == Some(prepared[k])
    {
      var m := messages[i];
      if m.role != "user" {
        prepared := prepared + [m];
        continue;
      }
      var text, refs := ParseImageMarkers(m.content);
      assert refs == Refs(m);
      if refs == [] {
        prepared := prepared + [m];
        continue;
      }
      var uris, bad := NormaliseRefs(refs, n);
      if bad.Some? {
        assert FailsAt(messages, i, n, bad.value);
        return Failed(BadImage(bad.value));
      }
      var content := ComposeMultimodalMessage(text, uris);
      prepared := prepared + [ChatMessage(m.role, content)];
    }
    r := Prepared(prepared, true);
  }

  /** Message for message, in order. */
  ghost predicate IsPrepared(messages: seq<ChatMessage>, prepared: seq<ChatMessage>, n: Normaliser) {
    && |prepared| == |messages|
    && forall k | 0 <= k < |messages| :: PreparedMessage(messages[k], n) == Some(prepared[k])
  }

  /** Message `i` is the first with an image that cannot be used, and `bad` its first such image. */
  ghost predicate FailsAt(messages: seq<ChatMessage>, i: nat, n: Normaliser, bad: string) {
    && i < |messages|
    && (forall k | 0 <= k < i :: PreparedMessage(messages[k], n).Some?)
    && NormalAll(Refs(messages[i]), n).None? && bad == FirstBad(Refs(messages[i]), n)
  }

  lemma {:induction false} NoneToPrepare(messages: seq<ChatMessage>, n: Normaliser)
    requires Count(messages) == 0
    ensures IsPrepared(messages, messages, n)
  {
    hide ParseMarkers;
    if messages != [] {
      NoneToPrepare(messages[1..], n);
      assert forall k | 1 <= k < |messages| :: messages[k] == messages[1..][k - 1];
    }
  }

  // ----- what preparing keeps -----------------------------------------------------------------------------

  /** The normaliser only returns references that can stand in a marker. */
  ghost predicate ReturnsCleanRefs(n: Normaliser) {
    forall s :: n(s).Some? ==> CleanRef(n(s).value)
  }

  /** The text that is left next to the images. */
  function TextOf(m: ChatMessage): string { ParseMarkers(m.content).text }

  lemma NormalRefsAreClean(refs: seq<string>, n: Normaliser)
    requires ReturnsCleanRefs(n) && NormalAll(refs, n).Some?
    ensures CleanRefs(NormalAll(refs, n).value)
  {
    hide NormalAll, CleanRef;
    var us := NormalAll(refs, n).value;
    forall u | u in us ensures CleanRef(u) {
      var i :| 0 <= i < |us| && us[i] == u;
      assert n(refs[i]) == Some(u);
    }
  }

  /** A message keeps its role, and an image-free one is kept as it is. The images and text of any
      other are read back as the normalised images and the text exactly when that text holds no
      marker with a reference and no open one. */
  lemma PreparedReadsBackIff(m: ChatMessage, p: ChatMessage, n: Normaliser)
    requires ReturnsCleanRefs(n) && PreparedMessage(m, n) == Some(p)
    ensures p.role == m.role && (Refs(m) == [] ==> p == m)
    ensures Refs(m) != [] ==>
      && NormalAll(Refs(m), n).Some?
      && (Refs(p) == NormalAll(Refs(m), n).value && TextOf(p) == TextOf(m)
          <==> Faithful(TextOf(m), NormalAll(Refs(m), n).value))
  {
    hide Scan, Trim, NormalAll, Compose, Faithful;
    if Refs(m) != [] {
      var us := NormalAll(Refs(m), n).value;
      NormalRefsAreClean(Refs(m), n);
      RoundTripIff(TextOf(m), us);
      TrimTwice(Scan(m.content).text);
    }
  }

  /** Every text that is composed anew is faithful. */
  predicate AllFaithful(messages: seq<ChatMessage>) {
    forall m | m in messages && Refs(m) != [] :: Faithful(TextOf(m), Refs(m))
  }

  /** With faithful texts every message keeps its number of images. */
  lemma {:induction false} PrepareKeepsCount(messages: seq<ChatMessage>, prepared: seq<ChatMessage>, n: Normaliser)
    requires ReturnsCleanRefs(n) && IsPrepared(messages, prepared, n) && AllFaithful(messages)
    ensures forall i | 0 <= i < |messages| :: |Refs(prepared[i])| == |Refs(messages[i])|
    ensures Count(prepared) == Count(messages)
    decreases |messages|
  {
    hide ParseMarkers, Trim, NormalAll, Scan, Open, PreparedMessage, CleanRef, ReturnsCleanRefs;
    if messages != [] {
      var m, p := messages[0], prepared[0];
      PreparedReadsBackIff(m, p, n);
      assert m in messages;
      assert |Refs(p)| == |Refs(m)|;
      assert forall k | 0 <= k < |messages| - 1 ::
          messages[1..][k] == messages[k + 1] && prepared[1..][k] == prepared[k + 1];
      PrepareKeepsCount(messages[1..], prepared[1..], n);
    }
  }

  /** Preparing prepared messages composes each text again with its references normalised twice. */
  lemma PrepareTwice(messages: seq<ChatMessage>, once: seq<ChatMessage>, twice: seq<ChatMessage>, n: Normaliser)
    requires ReturnsCleanRefs(n) && AllFaithful(messages)
    requires IsPrepared(messages, once, n) && IsPrepared(once, twice, n)
    ensures forall k | 0 <= k < |messages| :: IsTwicePrepared(messages[k], twice[k], n)
  {
    hide ParseMarkers, Trim, NormalAll, Scan, Open, CleanRef, Compose;
    forall k | 0 <= k < |messages| ensures IsTwicePrepared(messages[k], twice[k], n) {
      assert messages[k] in messages;
      PreparedReadsBackIff(messages[k], once[k], n);
    }
  }

  ghost predicate IsTwicePrepared(m: ChatMessage, p: ChatMessage, n: Normaliser) {
    if Refs(m) == [] then p == m
    else
      var us := NormalAll(Refs(m), n);
      && us.Some? && NormalAll(us.value, n).Some?
      && p == ChatMessage(m.role, Compose(TextOf(m), NormalAll(us.value, n).value))
  }
}
