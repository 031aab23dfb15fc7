/** The canonical payload: the fields of an event in alphabetical key order, written `key=value` and joined by `|`. */
module CanonicalPayload {
  import opened Prelude
  import opened CanonicalMetadata

  /** A field value: null or undefined, text, or an array of texts. */
  datatype Value = Absent | Text(text: string) | Listed(items: seq<string>)

  /** The text a value contributes: nothing for null or undefined, the comma-joined items of an array. */
  function ValueText(v: Value): string {
    match v
    case Absent => ""
    case Text(s) => s
    case Listed(items) => Join(",", items)
  }

  datatype Body = Body(
    eventId: Value, timestamp: Value, actorId: Value, actorRoles: Value, action: Value, resourceType: Value,
    resourceId: Value, result: Value, reason: Value, ip: Value, traceId: Value, metadata: Option<Json>)

  // ---- Key and value lists ----

  function Pairs(keys: seq<string>, texts: seq<string>): (r: seq<string>)
    requires |keys| == |texts|
    ensures |r| == |keys|
  {
    seq(|keys|, i requires 0 <= i < |keys| => keys[i] + "=" + texts[i])
  }

  /** `buildCanonicalPayload` on fields whose keys are already sorted. */
  function Payload(keys: seq<string>, texts: seq<string>): string
    requires |keys| == |texts|
  {
    Join("|", Pairs(keys, texts))
  }

  /** What stands between one value and the next. */
  function Separator(key: string): string {
    "|" + key + "="
  }

  /** The part of a payload after its first value. */
  function Rest(keys: seq<string>, texts: seq<string>): string
    requires |keys| == |texts|
  {
    if keys == [] then "" else Separator(keys[0]) + (texts[0] + Rest(keys[1..], texts[1..]))
  }

  /** A payload without its first key. */
  function Reading(keys: seq<string>, texts: seq<string>): string
    requires |keys| == |texts| > 0
  {
    texts[0] + Rest(keys[1..], texts[1..])
  }

  lemma {:induction false} PayloadIsRest(keys: seq<string>, texts: seq<string>)
    requires |keys| == |texts| > 0
    ensures Payload(keys, texts) == (keys[0] + "=") + Reading(keys, texts)
  {
    var pairs := Pairs(keys, texts);
    if |keys| > 1 {
      assert pairs[1..] == Pairs(keys[1..], texts[1..]);
      PayloadIsRest(keys[1..], texts[1..]);
    }
  }

  predicate PlainKeys(keys: seq<string>) {
    forall i :: 0 <= i < |keys| ==> PlainKey(keys[i])
  }

  /** A key holds neither `|` nor `=`. */
  predicate PlainKey(key: string) {
    '|' !in key && '=' !in key
  }

  predicate OccursAt(text: string, part: string, i: nat) {
    i + |part| <= |text| && text[i..i + |part|] == part
  }

  predicate Contains(text: string, part: string) {
    exists i: nat :: i <= |text| && OccursAt(text, part, i)
  }

  /** No value holds the separator before it or the one after it. */
  predicate Unambiguous(keys: seq<string>, texts: seq<string>)
    requires |keys| == |texts|
  {
    forall i :: 0 <= i < |keys| ==> ClearOf(keys, texts[i], i)
  }

  predicate ClearOf(keys: seq<string>, text: string, i: nat)
    requires i < |keys|
  {
    && (i > 0 ==> !Contains(text, Separator(keys[i])))
    && (i + 1 < |keys| ==> !Contains(text, Separator(keys[i + 1])))
  }

  lemma NoBarInside(text: string, key: string, i: nat, p: nat)
    requires PlainKey(key)
    requires OccursAt(text, Separator(key), i)
    requires i < p < i + |Separator(key)|
    ensures text[p] != '|'
  {
    assert text[p] == text[i..i + |Separator(key)|][p - i] == Separator(key)[p - i];
  }

  /**
   * A separator that occurs in a text starting inside its first part ends inside it too, when what follows that
   * part starts with a separator of its own.
   */
  lemma OccursInside(part: string, after: string, key: string, i: nat)
    requires PlainKey(key)
    requires after == "" || after[0] == '|'
    requires i < |part|
    requires OccursAt(part + after, Separator(key), i)
    ensures OccursAt(part, Separator(key), i)
  {
    var text, n := part + after, |Separator(key)|;
    if |part| < i + n {
      NoBarInside(text, key, i, |part|);
    } else {
      assert text[i..i + n] == part[i..i + n];
    }
  }

  lemma RestStarts(keys: seq<string>, texts: seq<string>)
    requires |keys| == |texts|
    ensures Rest(keys, texts) == "" || Rest(keys, texts)[0] == '|'
  {
  }

  lemma RestOccurs(keys: seq<string>, texts: seq<string>, before: string)
    requires |keys| == |texts| > 0
    ensures OccursAt(before + Rest(keys, texts), Separator(keys[0]), |before|)
  {
    OccursBetween(before, Separator(keys[0]), texts[0] + Rest(keys[1..], texts[1..]));
  }

  lemma OccursBetween(before: string, part: string, after: string)
    ensures OccursAt(before + (part + after), part, |before|)
  {
    var all := before + (part + after);
    assert all[|before|..|before| + |part|] == part;
  }

  /** The same text after a shorter and a longer front. */
  lemma SplitFront(short: string, long: string, a: string, b: string)
    requires short + a == long + b
    requires |short| <= |long|
    ensures long == short + long[|short|..]
    ensures a == long[|short|..] + b
  {
    assert (short + a)[..|short|] == short && (long + b)[..|short|] == long[..|short|];
    assert short + a == short + (long[|short|..] + b);
    SameTail(short, a, long[|short|..] + b);
  }

  /** Reading the rest of a payload with a later first separator finds some value that holds its own separator. */
  lemma {:induction false} LateReading(keys: seq<string>, a: seq<string>, b: seq<string>,
      skipped: string) returns (i: nat)
    requires |keys| == |a| == |b| > 0
    requires PlainKeys(keys)
    requires skipped != ""
    requires Rest(keys, a) == skipped + Rest(keys, b)
    ensures i < |keys| && Contains(a[i], Separator(keys[i]))
    decreases |keys|
  {
    assert PlainKey(keys[0]);
    var sep, afterA, afterB := Separator(keys[0]), Rest(keys[1..], a[1..]), Rest(keys[1..], b[1..]);
    var front := sep + a[0];
    assert Rest(keys, a) == front + afterA;
    RestOccurs(keys, b, skipped);
    RestStarts(keys[1..], a[1..]);
    if |skipped| < |front| {
      OccursInside(front, afterA, keys[0], |skipped|);
      OccursAfterSeparator(keys[0], a[0], |skipped|);
      i := 0;
    } else {
      SplitFront(front, skipped, afterA, Rest(keys, b));
      var more := skipped[|front|..] + (sep + b[0]);
      assert afterA == more + afterB;
      assert |keys| > 1;
      i := LateReading(keys[1..], a[1..], b[1..], more);
      i := i + 1;
    }
  }

  /** Past the first character of `|key=value`, a separator can only occur in the value. */
  lemma OccursAfterSeparator(key: string, text: string, i: nat)
    requires PlainKey(key)
    requires 0 < i
    requires OccursAt(Separator(key) + text, Separator(key), i)
    ensures Contains(text, Separator(key))
  {
    var whole, sep := Separator(key) + text, Separator(key);
    assert whole[i..i + |sep|][0] == whole[i];
    assert OccursAt(whole, sep, 0);
    if i < |sep| {
      NoBarInside(whole, key, 0, i);
    } else {
      assert text[i - |sep|..i - |sep| + |sep|] == whole[i..i + |sep|];
      assert OccursAt(text, sep, i - |sep|);
    }
  }

  lemma ClearTail(keys: seq<string>, texts: seq<string>)
    requires |keys| == |texts| > 0
    requires Unambiguous(keys, texts)
    ensures Unambiguous(keys[1..], texts[1..])
  {
    forall i | 0 <= i < |keys| - 1 ensures ClearOf(keys[1..], texts[1..][i], i) {
      assert ClearOf(keys, texts[i + 1], i + 1);
    }
  }

  /** Values clear of their separators are the only reading of the text they make. */
  lemma {:induction false} OnlyReading(keys: seq<string>, a: seq<string>, b: seq<string>)
    requires |keys| == |a| == |b| > 0
    requires PlainKeys(keys) && Unambiguous(keys, a)
    requires Reading(keys, a) == Reading(keys, b)
    ensures a == b
    decreases |keys|
  {
    var others, restA, restB := keys[1..], Rest(keys[1..], a[1..]), Rest(keys[1..], b[1..]);
    assert ClearOf(keys, a[0], 0);
    assert a == [a[0]] + a[1..] && b == [b[0]] + b[1..];
    if others == [] {
      assert a[0] + restA == a[0] && b[0] + restB == b[0];
      assert a[1..] == [] == b[1..];
    } else {
      assert PlainKey(keys[1]);
      if |b[0]| < |a[0]| {
        RestOccurs(others, b[1..], b[0]);
        RestStarts(others, a[1..]);
        OccursInside(a[0], restA, others[0], |b[0]|);
      } else if |a[0]| < |b[0]| {
        SplitFront(a[0], b[0], restA, restB);
        LateReadingIsExcluded(keys, a, b[1..], b[0][|a[0]|..]);
      } else {
        SplitFront(a[0], b[0], restA, restB);
        assert b[0] == a[0] && restA == restB by { assert b[0][|a[0]|..] == ""; }
        SameTail(Separator(keys[1]), a[1] + Rest(keys[2..], a[2..]), b[1] + Rest(keys[2..], b[2..]));
        ClearTail(keys, a);
        OnlyReading(others, a[1..], b[1..]);
      }
    }
  }

  lemma LateReadingIsExcluded(keys: seq<string>, a: seq<string>, b: seq<string>, skipped: string)
    requires |keys| == |a| == |b| + 1 > 1
    requires PlainKeys(keys) && Unambiguous(keys, a)
    ensures skipped == "" || Rest(keys[1..], a[1..]) != skipped + Rest(keys[1..], b)
  {
    forall k: nat | k < |keys| - 1 ensures !Contains(a[1..][k], Separator(keys[1..][k])) {
      assert ClearOf(keys, a[k + 1], k + 1);
    }
    if skipped != "" && Rest(keys[1..], a[1..]) == skipped + Rest(keys[1..], b) {
      var _ := LateReading(keys[1..], a[1..], b, skipped);
    }
  }

  // ---- Exactly which values are pinned down ----

  /** Other values under the same keys make the same payload. */
  ghost predicate HasTwin(keys: seq<string>, texts: seq<string>)
    requires |keys| == |texts|
  {
    exists other: seq<string> :: IsTwin(keys, texts, other)
  }

  predicate IsTwin(keys: seq<string>, texts: seq<string>, other: seq<string>)
    requires |keys| == |texts|
  {
    |other| == |keys| && other != texts && Payload(keys, other) == Payload(keys, texts)
  }

  lemma SameReadingSamePayload(keysA: seq<string>, a: seq<string>, keysB: seq<string>, b: seq<string>)
    requires |keysA| == |a| > 0 && |keysB| == |b| > 0
    requires keysA[0] == keysB[0]
    ensures Payload(keysA, a) == Payload(keysB, b) <==> Reading(keysA, a) == Reading(keysB, b)
  {
    PayloadIsRest(keysA, a);
    PayloadIsRest(keysB, b);
    if Payload(keysA, a) == Payload(keysB, b) {
      SameTail(keysA[0] + "=", Reading(keysA, a), Reading(keysB, b));
    }
  }

  /** Two neighbouring values that make the same text with the separator between them are exchangeable. */
  lemma {:induction false} MoveSeparator(keys: seq<string>, a: seq<string>, b: seq<string>, i: nat)
    requires |keys| == |a| == |b| && i + 1 < |keys|
    requires a[..i] == b[..i] && a[i + 2..] == b[i + 2..]
    requires a[i] + Separator(keys[i + 1]) + a[i + 1] == b[i] + Separator(keys[i + 1]) + b[i + 1]
    ensures Reading(keys, a) == Reading(keys, b)
    decreases i
  {
    if i == 0 {
      TwoValues(keys, a);
      TwoValues(keys, b);
    } else {
      assert a[0] == a[..i][0] == b[..i][0] == b[0];
      assert a[1..][..i - 1] == a[..i][1..] == b[..i][1..] == b[1..][..i - 1];
      assert a[1..][i - 1 + 2..] == a[i + 2..] == b[1..][i - 1 + 2..];
      MoveSeparator(keys[1..], a[1..], b[1..], i - 1);
    }
  }

  lemma TwoValues(keys: seq<string>, a: seq<string>)
    requires |keys| == |a| > 1
    ensures Reading(keys, a) == (a[0] + Separator(keys[1]) + a[1]) + Rest(keys[2..], a[2..])
  {
    assert keys[1..][1..] == keys[2..] && a[1..][1..] == a[2..];
  }

  /** A value is pinned down by the payload exactly when every value is clear of its two separators. */
  lemma PinnedDownIffUnambiguous(keys: seq<string>, a: seq<string>)
    requires |keys| == |a| > 0 && PlainKeys(keys)
    ensures HasTwin(keys, a) <==> !Unambiguous(keys, a)
  {
    if HasTwin(keys, a) {
      var b: seq<string> :| IsTwin(keys, a, b);
      SameReadingSamePayload(keys, a, keys, b);
      if Unambiguous(keys, a) { OnlyReading(keys, a, b); }
    } else if !Unambiguous(keys, a) {
      var i: nat :| i < |keys| && !ClearOf(keys, a[i], i);
      if i > 0 && Contains(a[i], Separator(keys[i])) {
        TwinByOwnSeparator(keys, a, i);
      } else {
        TwinByNextSeparator(keys, a, i);
      }
    }
  }

  lemma TwinByNextSeparator(keys: seq<string>, a: seq<string>, i: nat)
    requires |keys| == |a| && i + 1 < |keys|
    requires Contains(a[i], Separator(keys[i + 1]))
    ensures HasTwin(keys, a)
  {
    var sep := Separator(keys[i + 1]);
    var p: nat :| p <= |a[i]| && OccursAt(a[i], sep, p);
    var before, after := a[i][..p], a[i][p + |sep|..];
    assert a[i] == before + sep + after;
    var b := a[i := before][i + 1 := after + sep + a[i + 1]];
    assert |b[i]| < |a[i]|;
    assert a[i] + sep + a[i + 1] == b[i] + sep + b[i + 1];
    MoveSeparator(keys, a, b, i);
    SameReadingSamePayload(keys, b, keys, a);
    assert IsTwin(keys, a, b);
  }

  lemma TwinByOwnSeparator(keys: seq<string>, a: seq<string>, i: nat)
    requires |keys| == |a| && 0 < i < |keys|
    requires Contains(a[i], Separator(keys[i]))
    ensures HasTwin(keys, a)
  {
    var sep := Separator(keys[i]);
    var p: nat :| p <= |a[i]| && OccursAt(a[i], sep, p);
    var before, after := a[i][..p], a[i][p + |sep|..];
    assert a[i] == before + sep + after;
    var b := a[i - 1 := a[i - 1] + sep + before][i := after];
    assert |b[i]| < |a[i]|;
    assert a[i - 1] + sep + a[i] == b[i - 1] + sep + b[i];
    MoveSeparator(keys, a, b, i - 1);
    SameReadingSamePayload(keys, b, keys, a);
    assert IsTwin(keys, a, b);
  }

  // ---- Event bodies ----

  /** The keys every event has, sorted, up to the place where `metadata` would come. */
  const KEYS_BEFORE := ["action", "actorId", "actorRoles", "eventId", "ip"]

  const KEYS_AFTER := ["reason", "resourceId", "resourceType", "result", "timestamp", "traceId"]

  function TextsBefore(b: Body): (r: seq<string>)
    ensures |r| == |KEYS_BEFORE|
  {
    [ValueText(b.action), ValueText(b.actorId), ValueText(b.actorRoles), ValueText(b.eventId), ValueText(b.ip)]
  }

  function TextsAfter(b: Body): (r: seq<string>)
    ensures |r| == |KEYS_AFTER|
  {
    [ValueText(b.reason), ValueText(b.resourceId), ValueText(b.resourceType), ValueText(b.result),
     ValueText(b.timestamp), ValueText(b.traceId)]
  }

  /** The `metadata` key is present only when metadata has a canonical text. */
  function Keys(b: Body): seq<string> {
    KEYS_BEFORE + (if CanonicalText(b.metadata).Some? then ["metadata"] else []) + KEYS_AFTER
  }

  function Texts(b: Body): (r: seq<string>)
    ensures |r| == |Keys(b)|
  {
    TextsBefore(b) + (match CanonicalText(b.metadata) case Some(m) => [m] case None => []) + TextsAfter(b)
  }

  /** The canonical payload of an event body. */
  function Canonical(b: Body): string {
    Payload(Keys(b), Texts(b))
  }

  lemma PlainConcat(a: seq<string>, b: seq<string>)
    requires PlainKeys(a) && PlainKeys(b)
    ensures PlainKeys(a + b)
  {
    forall i | 0 <= i < |a + b| ensures PlainKey((a + b)[i]) {
      if i < |a| { assert PlainKey(a[i]); } else { assert PlainKey(b[i - |a|]); }
    }
  }

  lemma ConstantKeysArePlain()
    ensures PlainKeys(KEYS_BEFORE) && PlainKeys(KEYS_AFTER) && PlainKeys(["metadata"])
  {
  }

  lemma KeysArePlain(b: Body)
    ensures PlainKeys(Keys(b))
  {
    ConstantKeysArePlain();
    var middle := if CanonicalText(b.metadata).Some? then ["metadata"] else [];
    PlainConcat(KEYS_BEFORE, middle);
    PlainConcat(KEYS_BEFORE + middle, KEYS_AFTER);
  }

  /** No value holds the separator of any key, in particular when no value holds a `|`. */
  predicate Clean(b: Body) {
    forall i :: 0 <= i < |Texts(b)| ==> ClearOfAll(Texts(b)[i])
  }

  predicate ClearOfAll(text: string) {
    && !Contains(text, Separator("metadata"))
    && (forall i :: 0 <= i < |KEYS_BEFORE| ==> !Contains(text, Separator(KEYS_BEFORE[i])))
    && (forall i :: 0 <= i < |KEYS_AFTER| ==> !Contains(text, Separator(KEYS_AFTER[i])))
  }

  lemma OccurrenceStarts(text: string, key: string, i: nat)
    requires OccursAt(text, Separator(key), i)
    ensures i < |text| && text[i] == '|'
  {
    assert text[i] == text[i..i + |Separator(key)|][0];
  }

  lemma BarFreeIsClear(text: string, key: string)
    requires '|' !in text
    ensures !Contains(text, Separator(key))
  {
    forall i: nat | i <= |text| ensures !OccursAt(text, Separator(key), i) {
      if OccursAt(text, Separator(key), i) { OccurrenceStarts(text, key, i); }
    }
  }

  lemma BarFreeIsClean(b: Body)
    requires forall t :: t in Texts(b) ==> '|' !in t
    ensures Clean(b)
  {
    forall i | 0 <= i < |Texts(b)| ensures ClearOfAll(Texts(b)[i]) {
      var t := Texts(b)[i];
      BarFreeIsClear(t, "metadata");
      forall k | 0 <= k < |KEYS_BEFORE| ensures !Contains(t, Separator(KEYS_BEFORE[k])) {
        BarFreeIsClear(t, KEYS_BEFORE[k]);
      }
      forall k | 0 <= k < |KEYS_AFTER| ensures !Contains(t, Separator(KEYS_AFTER[k])) {
        BarFreeIsClear(t, KEYS_AFTER[k]);
      }
    }
  }

  lemma ClearOfKey(text: string, b: Body, key: string)
    requires ClearOfAll(text) && key in Keys(b)
    ensures !Contains(text, Separator(key))
  {
    assert key in KEYS_BEFORE || key in KEYS_AFTER || key == "metadata";
  }

  lemma CleanIsUnambiguous(b: Body)
    requires Clean(b)
    ensures Unambiguous(Keys(b), Texts(b))
  {
    var keys, texts := Keys(b), Texts(b);
    forall i: nat | i < |keys| ensures ClearOf(keys, texts[i], i) {
      assert ClearOfAll(texts[i]);
      ClearOfKey(texts[i], b, keys[i]);
      if i + 1 < |keys| { ClearOfKey(texts[i], b, keys[i + 1]); }
    }
  }

  /** One separator at the front of a text is the front of another only if their keys agree. */
  lemma SameSeparator(q: string, k: string, after: string)
    requires PlainKey(q) && PlainKey(k)
    requires OccursAt(Separator(k) + after, Separator(q), 0)
    ensures q == k
  {
    var text, n := Separator(k) + after, |Separator(q)|;
    assert text == text[..n] + text[n..];
    assert text[1..] == k + ("=" + after);
    assert text[1..] == q + ("=" + text[n..]);
    KeyEnds(k, "=" + after);
    KeyEnds(q, "=" + text[n..]);
    assert q == text[1..][..|q|] == k;
  }

  function KeyLength(text: string): nat {
    if text == "" || text[0] == '=' then 0 else 1 + KeyLength(text[1..])
  }

  lemma {:induction false} KeyEnds(key: string, after: string)
    requires '=' !in key
    requires after != "" && after[0] == '='
    ensures KeyLength(key + after) == |key|
  {
    if key == "" {
      assert key + after == after;
    } else {
      assert (key + after)[1..] == key[1..] + after;
      KeyEnds(key[1..], after);
    }
  }

  /** Where a separator occurs in the text of a payload, some value holds it or a later key has it. */
  lemma {:induction false} OccursByKeyOrValue(keys: seq<string>, texts: seq<string>, q: string, i: nat)
    requires |keys| == |texts| > 0
    requires PlainKeys(keys) && PlainKey(q)
    requires forall k :: 0 <= k < |texts| ==> !Contains(texts[k], Separator(q))
    requires OccursAt(Reading(keys, texts), Separator(q), i)
    ensures q in keys
    decreases |keys|
  {
    var text, after := texts[0] + Rest(keys[1..], texts[1..]), Rest(keys[1..], texts[1..]);
    RestStarts(keys[1..], texts[1..]);
    if i < |texts[0]| {
      OccursInside(texts[0], after, q, i);
    } else if |keys| > 1 {
      assert PlainKey(keys[1]);
      var sep, more, j := Separator(keys[1]), texts[1] + Rest(keys[2..], texts[2..]), i - |texts[0]|;
      assert after == sep + more;
      ShiftOccurrence(texts[0], sep + more, Separator(q), i);
      if j == 0 {
        SameSeparator(q, keys[1], more);
      } else if j < |sep| {
        BarInside(sep, more, keys[1], q, j);
      } else {
        ShiftOccurrence(sep, more, Separator(q), j);
        OccursByKeyOrValue(keys[1..], texts[1..], q, j - |sep|);
      }
    }
  }

  lemma BarInside(sep: string, more: string, key: string, q: string, j: nat)
    requires PlainKey(key) && sep == Separator(key)
    requires 0 < j < |sep|
    ensures !OccursAt(sep + more, Separator(q), j)
  {
    assert OccursAt(sep + more, sep, 0);
    NoBarInside(sep + more, key, 0, j);
    if OccursAt(sep + more, Separator(q), j) { OccurrenceStarts(sep + more, q, j); }
  }

  lemma ShiftOccurrence(front: string, back: string, part: string, i: nat)
    requires |front| <= i
    requires OccursAt(front + back, part, i)
    ensures OccursAt(back, part, i - |front|)
  {
    var j := i - |front|;
    assert (front + back)[i..i + |part|] == back[j..j + |part|];
  }

  /** A key that one payload has, and that neither the keys nor the texts of another mention, tells them apart. */
  lemma ExtraKeyShows(keysA: seq<string>, a: seq<string>, k: nat, keysB: seq<string>, b: seq<string>)
    requires |keysA| == |a| && |keysB| == |b| > 0 && 0 < k < |keysA|
    requires keysA[0] == keysB[0]
    requires PlainKeys(keysB) && PlainKey(keysA[k]) && keysA[k] !in keysB
    requires forall i :: 0 <= i < |b| ==> !Contains(b[i], Separator(keysA[k]))
    ensures Payload(keysA, a) != Payload(keysB, b)
  {
    SameReadingSamePayload(keysA, a, keysB, b);
    if Payload(keysA, a) == Payload(keysB, b) {
      var i := KeyOccurs(keysA, a, k);
      OccursByKeyOrValue(keysB, b, keysA[k], i);
    }
  }

  lemma MetadataShows(a: Body, b: Body)
    requires Clean(b)
    requires CanonicalText(a.metadata).Some? && CanonicalText(b.metadata).None?
    ensures Canonical(a) != Canonical(b)
  {
    KeysArePlain(b);
    assert "metadata" !in KEYS_BEFORE && "metadata" !in KEYS_AFTER;
    forall i | 0 <= i < |Texts(b)| ensures !Contains(Texts(b)[i], Separator("metadata")) {
      assert ClearOfAll(Texts(b)[i]);
    }
    ExtraKeyShows(Keys(a), Texts(a), 5, Keys(b), Texts(b));
  }

  /** The separator of every key but the first occurs in the text of a payload. */
  lemma {:induction false} KeyOccurs(keys: seq<string>, texts: seq<string>, k: nat) returns (i: nat)
    requires |keys| == |texts| && 0 < k < |keys|
    ensures OccursAt(Reading(keys, texts), Separator(keys[k]), i)
  {
    var others := texts[1] + Rest(keys[2..], texts[2..]);
    assert Rest(keys[1..], texts[1..]) == Separator(keys[1]) + others;
    if k == 1 {
      i := |texts[0]|;
      OccursBetween(texts[0], Separator(keys[1]), others);
    } else {
      var j := KeyOccurs(keys[1..], texts[1..], k - 1);
      var front := texts[0] + Separator(keys[1]);
      assert texts[0] + (Separator(keys[1]) + others) == front + others;
      i := |front| + j;
      OccursLater(front, others, Separator(keys[k]), j);
    }
  }

  lemma OccursLater(front: string, back: string, part: string, j: nat)
    requires OccursAt(back, part, j)
    ensures OccursAt(front + back, part, |front| + j)
  {
    assert (front + back)[|front| + j..|front| + j + |part|] == back[j..j + |part|];
  }

  /** Everything the canonical payload is meant to record of an event. */
  predicate SameRecord(a: Body, b: Body) {
    && TextsBefore(a) == TextsBefore(b) && TextsAfter(a) == TextsAfter(b)
    && CanonicalText(a.metadata) == CanonicalText(b.metadata)
  }

  /** For events whose texts hold no separator, in particular no `|`, the payload determines every field. */
  lemma PayloadDeterminesRecord(a: Body, b: Body)
    requires Clean(a) && Clean(b)
    ensures Canonical(a) == Canonical(b) <==> SameRecord(a, b)
  {
    if CanonicalText(a.metadata).Some? && CanonicalText(b.metadata).None? {
      MetadataShows(a, b);
    } else if CanonicalText(b.metadata).Some? && CanonicalText(a.metadata).None? {
      MetadataShows(b, a);
    } else if Canonical(a) == Canonical(b) {
      SameShapeSameRecord(a, b);
    }
  }

  /** Of two events that both carry metadata or both lack it, one without separators in its texts is enough. */
  lemma SameShapeSameRecord(a: Body, b: Body)
    requires Clean(a)
    requires CanonicalText(a.metadata).Some? == CanonicalText(b.metadata).Some?
    requires Canonical(a) == Canonical(b)
    ensures SameRecord(a, b)
  {
    KeysArePlain(a);
    CleanIsUnambiguous(a);
    SameReadingSamePayload(Keys(a), Texts(a), Keys(b), Texts(b));
    OnlyReading(Keys(a), Texts(a), Texts(b));
    var n := |Texts(a)|;
    assert TextsBefore(a) == Texts(a)[..5] == Texts(b)[..5] == TextsBefore(b);
    assert TextsAfter(a) == Texts(a)[n - 6..] == Texts(b)[n - 6..] == TextsAfter(b);
    if n == 12 { assert CanonicalText(a.metadata).value == Texts(a)[5] == Texts(b)[5]; }
  }

  /** Without that condition the payload does not tell where a reason ends and a resource id begins. */
  lemma ReasonRunsIntoResource(b: Body, reason: string, middle: string, id: string)
    ensures Canonical(b.(reason := Text(reason + "|resourceId=" + middle), resourceId := Text(id)))
         == Canonical(b.(reason := Text(reason), resourceId := Text(middle + "|resourceId=" + id)))
  {
    var x := b.(reason := Text(reason + "|resourceId=" + middle), resourceId := Text(id));
    var y := b.(reason := Text(reason), resourceId := Text(middle + "|resourceId=" + id));
    var keys, i := Keys(b), |Keys(b)| - 6;
    assert Keys(x) == keys == Keys(y);
    assert Separator(keys[i + 1]) == "|resourceId=";
    assert Texts(x)[i] + "|resourceId=" + Texts(x)[i + 1] == Texts(y)[i] + "|resourceId=" + Texts(y)[i + 1];
    MoveSeparator(keys, Texts(x), Texts(y), i);
    SameReadingSamePayload(keys, Texts(x), keys, Texts(y));
  }

  /** Nor, for any event with metadata, whether the metadata is metadata or the end of an address. */
  lemma AddressRunsIntoMetadata(b: Body, ip: string)
    requires CanonicalText(b.metadata).Some?
    ensures Canonical(b.(ip := Text(ip)))
         == Canonical(b.(ip := Text(ip + "|metadata=" + CanonicalText(b.metadata).value), metadata := None))
  {
    var m := CanonicalText(b.metadata).value;
    var x := b.(ip := Text(ip));
    var y := b.(ip := Text(ip + "|metadata=" + m), metadata := None);
    var keys, texts := KEYS_BEFORE[..4], TextsBefore(b)[..4];
    assert Keys(x) == keys + (["ip", "metadata"] + KEYS_AFTER);
    assert Texts(x) == texts + ([ip, m] + TextsAfter(b));
    assert Keys(y) == keys + (["ip"] + KEYS_AFTER);
    assert Separator("metadata") == "|metadata=";
    assert ip + "|metadata=" + m == ip + Separator("metadata") + m;
    assert Texts(y) == texts + ([ip + Separator("metadata") + m] + TextsAfter(b));
    AbsorbField(keys, texts, "ip", ip, "metadata", m, KEYS_AFTER, TextsAfter(b));
  }

  /** Dropping a key and letting the value before it run on to the end of its value keeps the payload. */
  lemma AbsorbField(keys: seq<string>, texts: seq<string>, p: string, u: string, q: string, v: string,
    laterKeys: seq<string>, later: seq<string>)
    requires |keys| == |texts| > 0 && |laterKeys| == |later|
    ensures Payload(keys + ([p, q] + laterKeys), texts + ([u, v] + later))
         == Payload(keys + ([p] + laterKeys), texts + ([u + Separator(q) + v] + later))
  {
    var keysA, a := [p, q] + laterKeys, [u, v] + later;
    var keysB, b := [p] + laterKeys, [u + Separator(q) + v] + later;
    TwoFront(p, u, q, v, laterKeys, later);
    OneFront(p, u + Separator(q) + v, laterKeys, later);
    ReadingConcat(keys, texts, keysA, a);
    ReadingConcat(keys, texts, keysB, b);
    SameReadingSamePayload(keys + keysA, texts + a, keys + keysB, texts + b);
  }

  lemma ReadingConcat(keys: seq<string>, texts: seq<string>, laterKeys: seq<string>, later: seq<string>)
    requires |keys| == |texts| > 0 && |laterKeys| == |later|
    ensures Reading(keys + laterKeys, texts + later) == Reading(keys, texts) + Rest(laterKeys, later)
  {
    assert (keys + laterKeys)[1..] == keys[1..] + laterKeys && (texts + later)[1..] == texts[1..] + later;
    RestConcat(keys[1..], texts[1..], laterKeys, later);
  }

  lemma OneFront(k: string, t: string, keys: seq<string>, texts: seq<string>)
    requires |keys| == |texts|
    ensures Rest([k] + keys, [t] + texts) == Separator(k) + (t + Rest(keys, texts))
  {
    assert ([k] + keys)[1..] == keys && ([t] + texts)[1..] == texts;
  }

  lemma TwoFront(k: string, t: string, l: string, u: string, keys: seq<string>, texts: seq<string>)
    requires |keys| == |texts|
    ensures Rest([k, l] + keys, [t, u] + texts) == Separator(k) + ((t + Separator(l) + u) + Rest(keys, texts))
  {
    assert [k, l] + keys == [k] + ([l] + keys) && [t, u] + texts == [t] + ([u] + texts);
    OneFront(k, t, [l] + keys, [u] + texts);
    OneFront(l, u, keys, texts);
    assert t + (Separator(l) + (u + Rest(keys, texts))) == (t + Separator(l) + u) + Rest(keys, texts);
  }

  lemma {:induction false} RestConcat(k1: seq<string>, t1: seq<string>, k2: seq<string>, t2: seq<string>)
    requires |k1| == |t1| && |k2| == |t2|
    ensures Rest(k1 + k2, t1 + t2) == Rest(k1, t1) + Rest(k2, t2)
  {
    if k1 == [] {
      assert k1 + k2 == k2 && t1 + t2 == t2;
    } else {
      assert (k1 + k2)[1..] == k1[1..] + k2 && (t1 + t2)[1..] == t1[1..] + t2;
      RestConcat(k1[1..], t1[1..], k2, t2);
    }
  }

  // ---- The payload written out ----

  lemma LastFieldIsWrittenLast(keys: seq<string>, texts: seq<string>, n: nat)
    requires |keys| == |texts| && 0 < n < |keys|
    ensures Payload(keys[..n + 1], texts[..n + 1]) == Payload(keys[..n], texts[..n]) + Separator(keys[n]) + texts[n]
  {
    var front, last := Payload(keys[..n], texts[..n]), Separator(keys[n]) + texts[n];
    assert keys[..n + 1] == keys[..n] + [keys[n]] && texts[..n + 1] == texts[..n] + [texts[n]];
    ReadingConcat(keys[..n], texts[..n], [keys[n]], [texts[n]]);
    OneFront(keys[n], texts[n], [], []);
    assert Rest([keys[n]], [texts[n]]) == last by {
      assert [keys[n]] + [] == [keys[n]] && [texts[n]] + [] == [texts[n]] && texts[n] + "" == texts[n];
    }
    PayloadIsRest(keys[..n + 1], texts[..n + 1]);
    PayloadIsRest(keys[..n], texts[..n]);
    assert front + last == front + Separator(keys[n]) + texts[n];
  }

  lemma FrontIsWritten(b: Body, keys: seq<string>, texts: seq<string>)
    requires |keys| == |texts| && KEYS_BEFORE <= keys && TextsBefore(b) <= texts
    ensures Payload(keys[..5], texts[..5]) ==
      "action=" + ValueText(b.action) + "|actorId=" + ValueText(b.actorId) + "|actorRoles=" + ValueText(b.actorRoles)
      + "|eventId=" + ValueText(b.eventId) + "|ip=" + ValueText(b.ip)
  {
    assert keys[..1] == ["action"] && texts[..1] == [ValueText(b.action)];
    PayloadIsRest(keys[..1], texts[..1]);
    assert Payload(keys[..1], texts[..1]) == "action=" + ValueText(b.action);
    assert Separator("actorId") == "|actorId=" && Separator("actorRoles") == "|actorRoles=";
    assert Separator("eventId") == "|eventId=" && Separator("ip") == "|ip=";
    LastFieldIsWrittenLast(keys, texts, 1);
    LastFieldIsWrittenLast(keys, texts, 2);
    LastFieldIsWrittenLast(keys, texts, 3);
    LastFieldIsWrittenLast(keys, texts, 4);
  }

  lemma ReasonAndResource(keys: seq<string>, texts: seq<string>, n: nat)
    requires |keys| == |texts| && 0 < n && n + 3 <= |keys|
    requires keys[n] == "reason" && keys[n + 1] == "resourceId" && keys[n + 2] == "resourceType"
    ensures Payload(keys[..n + 3], texts[..n + 3]) == Payload(keys[..n], texts[..n])
      + "|reason=" + texts[n] + "|resourceId=" + texts[n + 1] + "|resourceType=" + texts[n + 2]
  {
    LastFieldIsWrittenLast(keys, texts, n);
    LastFieldIsWrittenLast(keys, texts, n + 1);
    LastFieldIsWrittenLast(keys, texts, n + 2);
    assert Separator("reason") == "|reason=" && Separator("resourceId") == "|resourceId=";
    assert Separator("resourceType") == "|resourceType=";
  }

  lemma ResultAndOrigin(keys: seq<string>, texts: seq<string>, n: nat)
    requires |keys| == |texts| && 0 < n && n + 3 <= |keys|
    requires keys[n] == "result" && keys[n + 1] == "timestamp" && keys[n + 2] == "traceId"
    ensures Payload(keys[..n + 3], texts[..n + 3]) == Payload(keys[..n], texts[..n])
      + "|result=" + texts[n] + "|timestamp=" + texts[n + 1] + "|traceId=" + texts[n + 2]
  {
    LastFieldIsWrittenLast(keys, texts, n);
    LastFieldIsWrittenLast(keys, texts, n + 1);
    LastFieldIsWrittenLast(keys, texts, n + 2);
    assert Separator("result") == "|result=" && Separator("timestamp") == "|timestamp=";
    assert Separator("traceId") == "|traceId=";
  }

  lemma BackIsWritten(b: Body, keys: seq<string>, texts: seq<string>, n: nat)
    requires |keys| == |texts| == n + 6 && n > 0
    requires keys[n..] == KEYS_AFTER && texts[n..] == TextsAfter(b)
    ensures Payload(keys, texts) == Payload(keys[..n], texts[..n])
      + "|reason=" + ValueText(b.reason) + "|resourceId=" + ValueText(b.resourceId)
      + "|resourceType=" + ValueText(b.resourceType) + "|result=" + ValueText(b.result)
      + "|timestamp=" + ValueText(b.timestamp) + "|traceId=" + ValueText(b.traceId)
  {
    forall k | 0 <= k < 6 ensures keys[n + k] == KEYS_AFTER[k] && texts[n + k] == TextsAfter(b)[k] {
      assert keys[n + k] == keys[n..][k] && texts[n + k] == texts[n..][k];
    }
    ReasonAndResource(keys, texts, n);
    ResultAndOrigin(keys, texts, n + 3);
    assert keys[..n + 6] == keys && texts[..n + 6] == texts;
  }

  /** The payload, written out: each field's text stands behind its own name, metadata only where there is any. */
  lemma CanonicalIsWritten(b: Body)
    ensures Canonical(b) ==
      "action=" + ValueText(b.action) + "|actorId=" + ValueText(b.actorId) + "|actorRoles=" + ValueText(b.actorRoles)
      + "|eventId=" + ValueText(b.eventId) + "|ip=" + ValueText(b.ip)
      + (if CanonicalText(b.metadata).Some? then "|metadata=" + CanonicalText(b.metadata).value else "")
      + "|reason=" + ValueText(b.reason) + "|resourceId=" + ValueText(b.resourceId)
      + "|resourceType=" + ValueText(b.resourceType) + "|result=" + ValueText(b.result)
      + "|timestamp=" + ValueText(b.timestamp) + "|traceId=" + ValueText(b.traceId)
  {
    var keys, texts := Keys(b), Texts(b);
    FrontIsWritten(b, keys, texts);
    var front := Payload(keys[..5], texts[..5]);
    match CanonicalText(b.metadata)
    case Some(m) =>
      LastFieldIsWrittenLast(keys, texts, 5);
      assert Separator("metadata") == "|metadata=";
      assert front + "|metadata=" + m == front + ("|metadata=" + m);
      BackIsWritten(b, keys, texts, 6);
    case None =>
      assert front + "" == front;
      BackIsWritten(b, keys, texts, 5);
  }

  /** Null and undefined are written as nothing, a list as its items with commas between them. */
  lemma ValuesAreWritten(items: seq<string>, last: string)
    ensures ValueText(Absent) == "" && ValueText(Text(last)) == last
    ensures ValueText(Listed([])) == "" && ValueText(Listed([last])) == last
    ensures items != [] ==> ValueText(Listed(items + [last])) == ValueText(Listed(items)) + "," + last
  {
    if items != [] { JoinedLast(items, last); }
  }

  lemma {:induction false} JoinedLast(items: seq<string>, last: string)
    requires items != []
    ensures Join(",", items + [last]) == Join(",", items) + "," + last
  {
    assert (items + [last])[1..] == items[1..] + [last];
    if |items| > 1 { JoinedLast(items[1..], last); }
  }

  /** Absent, null and empty metadata, and scalars that are no text, make one payload. */
  lemma EmptyMetadataIsAbsent(b: Body, j: Json)
    requires j.JNull? || j.JBool? || j.JNum? || j == JStr("") || j == JArr([]) || j == JObj([])
    ensures Canonical(b.(metadata := Some(j))) == Canonical(b.(metadata := None))
  {
    TextsCompose(b.(metadata := Some(j)));
    TextsCompose(b.(metadata := None));
  }

  /** Anything else shows. */
  lemma MembersAreNotAbsent(b: Body, j: Json)
    requires (j.JObj? && |j.members| > 0) || (j.JArr? && |j.items| > 0) || (j.JStr? && |j.text| > 0)
    requires Clean(b.(metadata := Some(j)))
    ensures Canonical(b.(metadata := Some(j))) != Canonical(b.(metadata := None))
  {
    var with := b.(metadata := Some(j));
    CleanWithoutMetadata(with);
    PayloadDeterminesRecord(with, b.(metadata := None));
  }

  lemma CleanWithoutMetadata(b: Body)
    requires Clean(b)
    ensures Clean(b.(metadata := None))
  {
    var without := b.(metadata := None);
    TextsCompose(without);
    forall t | t in Texts(without) ensures ClearOfAll(t) {
      assert t in Texts(b);
      var i :| 0 <= i < |Texts(b)| && Texts(b)[i] == t;
    }
  }

  // ---- Exactly which events are pinned down ----

  /** Metadata, where there is any, is a parsed JSON value. */
  predicate ParsedMetadata(b: Body) {
    b.metadata.Some? ==> WellFormed(b.metadata.value)
  }

  /** Another event with the same payload that records something else. */
  predicate IsEventTwin(b: Body, other: Body) {
    ParsedMetadata(other) && Canonical(other) == Canonical(b) && !SameRecord(other, b)
  }

  ghost predicate HasEventTwin(b: Body) {
    exists other: Body :: IsEventTwin(b, other)
  }

  /** The address ends in what the metadata field would look like. */
  ghost predicate EndsInMetadata(ip: string) {
    exists front: string, m: Json :: EndsIn(ip, front, m)
  }

  predicate EndsIn(ip: string, front: string, m: Json) {
    && WellFormed(m) && CanonicalText(Some(m)).Some?
    && ip == front + "|metadata=" + CanonicalText(Some(m)).value
  }

  lemma TextsCompose(b: Body)
    requires CanonicalText(b.metadata).None?
    ensures Keys(b) == KEYS_BEFORE + KEYS_AFTER && Texts(b) == TextsBefore(b) + TextsAfter(b)
  {
  }

  lemma SameTextsSameRecord(a: Body, b: Body)
    requires CanonicalText(a.metadata).None? && CanonicalText(b.metadata).None?
    ensures Texts(a) == Texts(b) <==> SameRecord(a, b)
  {
    TextsCompose(a);
    TextsCompose(b);
    if Texts(a) == Texts(b) {
      assert TextsBefore(a) == Texts(a)[..5] == Texts(b)[..5] == TextsBefore(b);
      assert TextsAfter(a) == Texts(a)[5..] == Texts(b)[5..] == TextsAfter(b);
    }
  }

  function WithTexts(b: Body, t: seq<string>): Body
    requires |t| == 11
  {
    b.(action := Text(t[0]), actorId := Text(t[1]), actorRoles := Text(t[2]), eventId := Text(t[3]), ip := Text(t[4]),
       reason := Text(t[5]), resourceId := Text(t[6]), resourceType := Text(t[7]), result := Text(t[8]),
       timestamp := Text(t[9]), traceId := Text(t[10]))
  }

  lemma WithTextsHasThem(b: Body, t: seq<string>)
    requires CanonicalText(b.metadata).None? && |t| == 11
    ensures Keys(WithTexts(b, t)) == Keys(b) && Texts(WithTexts(b, t)) == t
  {
  }

  lemma MetadataHasTwin(b: Body)
    requires CanonicalText(b.metadata).Some?
    ensures HasEventTwin(b)
  {
    var ip := ValueText(b.ip);
    var other := b.(ip := Text(ip + "|metadata=" + CanonicalText(b.metadata).value), metadata := None);
    AddressRunsIntoMetadata(b, ip);
    SameIpSameCanonical(b);
    assert IsEventTwin(b, other);
  }

  lemma SameIpSameCanonical(b: Body)
    ensures Canonical(b.(ip := Text(ValueText(b.ip)))) == Canonical(b)
  {
    var x := b.(ip := Text(ValueText(b.ip)));
    assert Keys(x) == Keys(b) && Texts(x) == Texts(b);
  }

  lemma AmbiguousTextsHaveTwin(b: Body)
    requires CanonicalText(b.metadata).None? && ParsedMetadata(b)
    requires !Unambiguous(Keys(b), Texts(b))
    ensures HasEventTwin(b)
  {
    KeysArePlain(b);
    PinnedDownIffUnambiguous(Keys(b), Texts(b));
    var t: seq<string> :| IsTwin(Keys(b), Texts(b), t);
    TextsCompose(b);
    WithTextsHasThem(b, t);
    SameTextsSameRecord(WithTexts(b, t), b);
    assert IsEventTwin(b, WithTexts(b, t));
  }

  lemma MetadataAddressHasTwin(b: Body)
    requires CanonicalText(b.metadata).None? && EndsInMetadata(ValueText(b.ip))
    ensures HasEventTwin(b)
  {
    var front: string, m: Json :| EndsIn(ValueText(b.ip), front, m);
    var other := b.(ip := Text(front), metadata := Some(m));
    AddressRunsIntoMetadata(other, front);
    var merged := other.(ip := Text(ValueText(b.ip)), metadata := None);
    assert Keys(merged) == Keys(b) && Texts(merged) == Texts(b);
    assert other.(ip := Text(front)) == other;
    assert IsEventTwin(b, other);
  }

  /** A twin of an event without metadata either shares its keys or takes its metadata out of the address. */
  lemma TwinWithoutMetadata(b: Body, other: Body)
    requires CanonicalText(b.metadata).None? && Unambiguous(Keys(b), Texts(b))
    requires IsEventTwin(b, other)
    ensures EndsInMetadata(ValueText(b.ip))
  {
    KeysArePlain(b);
    var ip := ValueText(other.ip);
    var merged := match CanonicalText(other.metadata)
      case None => other
      case Some(m) => other.(ip := Text(ip + "|metadata=" + m), metadata := None);
    if CanonicalText(other.metadata).Some? {
      AddressRunsIntoMetadata(other, ip);
      SameIpSameCanonical(other);
    }
    TextsCompose(b);
    TextsCompose(merged);
    SameReadingSamePayload(Keys(b), Texts(b), Keys(merged), Texts(merged));
    OnlyReading(Keys(b), Texts(b), Texts(merged));
    SameTextsSameRecord(merged, b);
    assert CanonicalText(other.metadata).Some?;
    assert ValueText(b.ip) == Texts(b)[4] == Texts(merged)[4] == ValueText(merged.ip);
    assert EndsIn(ValueText(b.ip), ip, other.metadata.value);
  }

  /**
   * An event is not pinned down by its payload exactly if it carries metadata, or some text of it holds the separator
   * before or after its field, or its address ends in what the metadata field would look like.
   */
  lemma HasEventTwinIff(b: Body)
    requires ParsedMetadata(b)
    ensures HasEventTwin(b) <==>
      CanonicalText(b.metadata).Some? || !Unambiguous(Keys(b), Texts(b)) || EndsInMetadata(ValueText(b.ip))
  {
    if CanonicalText(b.metadata).Some? {
      MetadataHasTwin(b);
    } else if !Unambiguous(Keys(b), Texts(b)) {
      AmbiguousTextsHaveTwin(b);
    } else if EndsInMetadata(ValueText(b.ip)) {
      MetadataAddressHasTwin(b);
    } else if HasEventTwin(b) {
      var other: Body :| IsEventTwin(b, other);
      TwinWithoutMetadata(b, other);
    }
  }
}
