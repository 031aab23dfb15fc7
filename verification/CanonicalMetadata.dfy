/** The canonical text of event metadata: keys sorted at every depth, then written out as JSON. */
module CanonicalMetadata {
  import opened Prelude

  /** A JSON value as the program holds it; an object lists its own properties in enumeration order. */
  datatype Json =
    | JNull
    | JBool(flag: bool)
    | JNum(text: string)
    | JStr(text: string)
    | JArr(items: seq<Json>)
    | JObj(members: seq<Member>)

  datatype Member = Member(key: string, value: Json)

  /** The same value with the order of properties forgotten. */
  datatype Tree =
    | Leaf(scalar: Json)
    | Node(children: seq<Tree>)
    | Record(fields: map<string, Tree>)

  function Denote(j: Json): Tree
    decreases j
  {
    match j
    case JArr(items) => Node(DenoteAll(items))
    case JObj(members) => Record(Fields(members))
    case _ => Leaf(j)
  }

  function DenoteAll(items: seq<Json>): seq<Tree>
    decreases items
  {
    if items == [] then [] else [Denote(items[0])] + DenoteAll(items[1..])
  }

  function Fields(members: seq<Member>): map<string, Tree>
    decreases members
  {
    if members == [] then map[]
    else Fields(members[1..])[members[0].key := Denote(members[0].value)]
  }

  predicate HasKey(members: seq<Member>, key: string) {
    members != [] && (members[0].key == key || HasKey(members[1..], key))
  }

  predicate IsNumeral(s: string) {
    s != "" && forall i :: 0 <= i < |s| ==> IsNumeralChar(s[i])
  }

  predicate IsNumeralChar(c: char) {
    '0' <= c <= '9' || c == '-' || c == '+' || c == '.' || c == 'e'
  }

  /** What every parsed JSON value satisfies: an object has each key once, a number prints as a numeral. */
  predicate WellFormed(j: Json)
    decreases j
  {
    match j
    case JNum(text) => IsNumeral(text)
    case JArr(items) => WellFormedItems(items)
    case JObj(members) => WellFormedMembers(members)
    case _ => true
  }

  predicate WellFormedItems(items: seq<Json>)
    decreases items
  {
    items == [] || (WellFormed(items[0]) && WellFormedItems(items[1..]))
  }

  predicate WellFormedMembers(members: seq<Member>)
    decreases members
  {
    members == []
    || (WellFormed(members[0].value) && !HasKey(members[1..], members[0].key) && WellFormedMembers(members[1..]))
  }

  // ---- Key order ----

  /** Code-unit order, the default order of `Array.prototype.sort` on strings. */
  predicate Lex(a: string, b: string) {
    if b == "" then false
    else if a == "" then true
    else if a[0] == b[0] then Lex(a[1..], b[1..])
    else a[0] < b[0]
  }

  /** The texts agree up to `n`, where the first ends or has the smaller character. */
  predicate DiffersAt(a: string, b: string, n: nat) {
    n <= |a| && n < |b| && a[..n] == b[..n] && (n == |a| || a[n] < b[n])
  }

  lemma {:induction false} LexIsFirstDifference(a: string, b: string)
    ensures Lex(a, b) <==> exists n: nat :: DiffersAt(a, b, n)
  {
    if a != "" && b != "" && a[0] == b[0] {
      LexIsFirstDifference(a[1..], b[1..]);
      if Lex(a, b) {
        var n: nat :| DiffersAt(a[1..], b[1..], n);
        assert a[..n + 1] == [a[0]] + a[1..][..n] && b[..n + 1] == [b[0]] + b[1..][..n];
        assert DiffersAt(a, b, n + 1);
      }
      forall n: nat | DiffersAt(a, b, n) ensures Lex(a, b) {
        assert a[1..][..n - 1] == a[..n][1..] && b[1..][..n - 1] == b[..n][1..];
        assert DiffersAt(a[1..], b[1..], n - 1);
      }
    } else if Lex(a, b) {
      assert DiffersAt(a, b, 0);
    } else {
      forall n: nat ensures !DiffersAt(a, b, n) {
        if 0 < n <= |a| && n < |b| { assert a[..n][0] == a[0] && b[..n][0] == b[0]; }
      }
    }
  }

  predicate AllDigits(s: string) {
    forall i :: 0 <= i < |s| ==> '0' <= s[i] <= '9'
  }

  /** Array-index keys, which an object enumerates first and in numeric order however they were inserted. */
  predicate IsIndex(key: string) {
    && key != "" && AllDigits(key) && (key[0] == '0' ==> |key| == 1)
    && (|key| < 10 || (|key| == 10 && Lex(key, "4294967295")))
  }

  /** The order in which an object filled in sorted order enumerates its keys. */
  predicate KeyLess(a: string, b: string) {
    if IsIndex(a) != IsIndex(b) then IsIndex(a)
    else if IsIndex(a) && |a| != |b| then |a| < |b|
    else Lex(a, b)
  }

  lemma {:induction false} LexIrreflexive(a: string)
    ensures !Lex(a, a)
  {
    if a != "" { LexIrreflexive(a[1..]); }
  }

  lemma {:induction false} LexTotal(a: string, b: string)
    ensures Lex(a, b) || Lex(b, a) || a == b
  {
    if a != "" && b != "" && a[0] == b[0] {
      LexTotal(a[1..], b[1..]);
      assert a == [a[0]] + a[1..] && b == [b[0]] + b[1..];
    }
  }

  lemma {:induction false} LexTransitive(a: string, b: string, c: string)
    requires Lex(a, b) && Lex(b, c)
    ensures Lex(a, c)
  {
    if a != "" && a[0] == b[0] == c[0] { LexTransitive(a[1..], b[1..], c[1..]); }
  }

  lemma KeyLessTotal(a: string, b: string)
    ensures !KeyLess(a, a)
    ensures KeyLess(a, b) || KeyLess(b, a) || a == b
  {
    LexIrreflexive(a);
    LexTotal(a, b);
  }

  lemma KeyLessTransitive(a: string, b: string, c: string)
    requires KeyLess(a, b) && KeyLess(b, c)
    ensures KeyLess(a, c)
  {
    if Lex(a, b) && Lex(b, c) { LexTransitive(a, b, c); }
  }

  // ---- The key order in numbers ----

  function Power(n: nat): (r: nat)
    ensures r > 0
  {
    if n == 0 then 1 else 10 * Power(n - 1)
  }

  function Digit(c: char): nat
    requires '0' <= c <= '9'
  {
    c as int - '0' as int
  }

  /** The number a text of digits stands for. */
  function Number(s: string): nat
    requires AllDigits(s)
  {
    if s == "" then 0 else Digit(s[0]) * Power(|s| - 1) + Number(s[1..])
  }

  lemma {:induction false} NumberIsBelow(s: string)
    requires AllDigits(s)
    ensures Number(s) < Power(|s|)
    ensures s != "" && s[0] != '0' ==> Number(s) >= Power(|s| - 1)
  {
    if s != "" {
      NumberIsBelow(s[1..]);
      DigitTimes(Digit(s[0]), Power(|s| - 1));
    }
  }

  lemma DigitTimes(d: nat, p: nat)
    requires d <= 9
    ensures d * p <= 9 * p && (d >= 1 ==> d * p >= p)
  {
  }

  lemma {:induction false} PowerGrows(m: nat, n: nat)
    requires m <= n
    ensures Power(m) <= Power(n)
  {
    if m < n { PowerGrows(m, n - 1); }
  }

  lemma {:induction false} LexIsNumeric(a: string, b: string)
    requires AllDigits(a) && AllDigits(b) && |a| == |b|
    ensures Lex(a, b) <==> Number(a) < Number(b)
  {
    if a != "" {
      var p := Power(|a| - 1);
      NumberIsBelow(a[1..]);
      NumberIsBelow(b[1..]);
      if a[0] == b[0] {
        LexIsNumeric(a[1..], b[1..]);
      } else if a[0] < b[0] {
        DigitAbove(Digit(a[0]), Digit(b[0]), p);
      } else {
        DigitAbove(Digit(b[0]), Digit(a[0]), p);
      }
    }
  }

  lemma {:induction false} DigitAbove(c: nat, d: nat, p: nat)
    requires c < d
    ensures c * p + p <= d * p
  {
    if c + 1 < d { DigitAbove(c, d - 1, p); }
    assert d * p == (d - 1) * p + p;
  }

  /** A text of digits without a leading zero, as a number is printed. */
  predicate IsPrinted(s: string) {
    s != "" && AllDigits(s) && (s[0] == '0' ==> |s| == 1)
  }

  lemma LongerIsLarger(a: string, b: string)
    requires IsPrinted(a) && IsPrinted(b) && |a| < |b|
    ensures Number(a) < Number(b)
  {
    NumberIsBelow(a);
    NumberIsBelow(b);
    PowerGrows(|a|, |b| - 1);
  }

  lemma NumberFrom(key: string, i: nat, n: nat, p: nat)
    requires AllDigits(key) && i < |key|
    requires Number(key[i + 1..]) == n && Power(|key| - i - 1) == p
    ensures Number(key[i..]) == Digit(key[i]) * p + n
    ensures Power(|key| - i) == 10 * p
  {
    assert key[i..][1..] == key[i + 1..];
  }

  lemma LargestIndex(key: string)
    requires key == "4294967295"
    ensures AllDigits(key) && Number(key) == 0xFFFF_FFFF
  {
    TenDigits(key);
    assert key[0] == '4' && key[1] == '2' && key[2] == '9' && key[3] == '4' && key[4] == '9';
    assert key[5] == '6' && key[6] == '7' && key[7] == '2' && key[8] == '9' && key[9] == '5';
  }

  lemma TenDigits(key: string)
    requires AllDigits(key) && |key| == 10
    ensures Number(key) == 1000000000 * Digit(key[0]) + 100000000 * Digit(key[1]) + 10000000 * Digit(key[2])
      + 1000000 * Digit(key[3]) + 100000 * Digit(key[4]) + 10000 * Digit(key[5]) + 1000 * Digit(key[6])
      + 100 * Digit(key[7]) + 10 * Digit(key[8]) + Digit(key[9])
  {
    var n9 := Digit(key[9]);
    NumberFrom(key, 9, 0, 1);
    var n8 := Digit(key[8]) * 10 + n9;
    NumberFrom(key, 8, n9, 10);
    var n7 := Digit(key[7]) * 100 + n8;
    NumberFrom(key, 7, n8, 100);
    var n6 := Digit(key[6]) * 1000 + n7;
    NumberFrom(key, 6, n7, 1000);
    var n5 := Digit(key[5]) * 10000 + n6;
    NumberFrom(key, 5, n6, 10000);
    var n4 := Digit(key[4]) * 100000 + n5;
    NumberFrom(key, 4, n5, 100000);
    var n3 := Digit(key[3]) * 1000000 + n4;
    NumberFrom(key, 3, n4, 1000000);
    var n2 := Digit(key[2]) * 10000000 + n3;
    NumberFrom(key, 2, n3, 10000000);
    var n1 := Digit(key[1]) * 100000000 + n2;
    NumberFrom(key, 1, n2, 100000000);
    NumberFrom(key, 0, n1, 1000000000);
    assert key[0..] == key;
  }

  /** The index keys are the printed numbers below 2^32 - 1. */
  lemma IndexIff(key: string)
    ensures IsIndex(key) <==> IsPrinted(key) && Number(key) < 0xFFFF_FFFF
  {
    if IsPrinted(key) {
      var largest := "4294967295";
      LargestIndex(largest);
      if |key| < 10 {
        LongerIsLarger(key, largest);
      } else if |key| == 10 {
        LexIsNumeric(key, largest);
      } else {
        LongerIsLarger(largest, key);
      }
    }
  }

  /** Index keys come first and by number, the others behind them and by their first difference. */
  lemma KeyOrder(a: string, b: string)
    ensures IsIndex(a) && IsIndex(b) ==> (KeyLess(a, b) <==> Number(a) < Number(b))
    ensures IsIndex(a) && !IsIndex(b) ==> KeyLess(a, b) && !KeyLess(b, a)
    ensures !IsIndex(a) && !IsIndex(b) ==> (KeyLess(a, b) <==> exists n: nat :: DiffersAt(a, b, n))
  {
    LexIsFirstDifference(a, b);
    if IsIndex(a) && IsIndex(b) {
      if |a| < |b| {
        LongerIsLarger(a, b);
      } else if |a| > |b| {
        LongerIsLarger(b, a);
      } else {
        LexIsNumeric(a, b);
      }
    }
  }

  // ---- Sorting keys at every depth ----

  /**
   * `sortMetadataValue`. Assigning to `__proto__` sets the prototype of the new object and makes no property, so
   * a member of that name disappears.
   */
  function Sort(j: Json): Json
    decreases j
  {
    match j
    case JArr(items) => JArr(SortItems(items))
    case JObj(members) => JObj(SortMembers(members))
    case _ => j
  }

  function SortItems(items: seq<Json>): seq<Json>
    decreases items
  {
    if items == [] then [] else [Sort(items[0])] + SortItems(items[1..])
  }

  function SortMembers(members: seq<Member>): seq<Member>
    decreases members
  {
    if members == [] then []
    else if members[0].key == "__proto__" then SortMembers(members[1..])
    else Insert(Member(members[0].key, Sort(members[0].value)), SortMembers(members[1..]))
  }

  function Insert(m: Member, sorted: seq<Member>): seq<Member> {
    if sorted == [] || KeyLess(m.key, sorted[0].key) then [m] + sorted
    else [sorted[0]] + Insert(m, sorted[1..])
  }

  /** The value without its `__proto__` members, at every depth. */
  function Strip(j: Json): Json
    decreases j
  {
    match j
    case JArr(items) => JArr(StripItems(items))
    case JObj(members) => JObj(StripMembers(members))
    case _ => j
  }

  function StripItems(items: seq<Json>): seq<Json>
    decreases items
  {
    if items == [] then [] else [Strip(items[0])] + StripItems(items[1..])
  }

  function StripMembers(members: seq<Member>): seq<Member>
    decreases members
  {
    if members == [] then []
    else if members[0].key == "__proto__" then StripMembers(members[1..])
    else [Member(members[0].key, Strip(members[0].value))] + StripMembers(members[1..])
  }

  predicate ProtoFree(j: Json)
    decreases j
  {
    match j
    case JArr(items) => ProtoFreeItems(items)
    case JObj(members) => ProtoFreeMembers(members)
    case _ => true
  }

  predicate ProtoFreeItems(items: seq<Json>)
    decreases items
  {
    items == [] || (ProtoFree(items[0]) && ProtoFreeItems(items[1..]))
  }

  predicate ProtoFreeMembers(members: seq<Member>)
    decreases members
  {
    members == []
    || (members[0].key != "__proto__" && ProtoFree(members[0].value) && ProtoFreeMembers(members[1..]))
  }

  lemma {:induction false} StripKeepsProtoFree(j: Json)
    requires ProtoFree(j)
    ensures Strip(j) == j
    decreases j
  {
    match j
    case JArr(items) => StripItemsKeepsProtoFree(items);
    case JObj(members) => StripMembersKeepsProtoFree(members);
    case _ =>
  }

  lemma {:induction false} StripItemsKeepsProtoFree(items: seq<Json>)
    requires ProtoFreeItems(items)
    ensures StripItems(items) == items
    decreases items
  {
    if items != [] {
      StripKeepsProtoFree(items[0]);
      StripItemsKeepsProtoFree(items[1..]);
      assert items == [items[0]] + items[1..];
    }
  }

  lemma {:induction false} StripMembersKeepsProtoFree(members: seq<Member>)
    requires ProtoFreeMembers(members)
    ensures StripMembers(members) == members
    decreases members
  {
    if members != [] {
      StripKeepsProtoFree(members[0].value);
      StripMembersKeepsProtoFree(members[1..]);
      assert members == [members[0]] + members[1..];
    }
  }

  /** Every key below the head is larger, at every depth. */
  predicate Ordered(j: Json)
    decreases j
  {
    match j
    case JArr(items) => OrderedItems(items)
    case JObj(members) => OrderedMembers(members)
    case _ => true
  }

  predicate OrderedItems(items: seq<Json>)
    decreases items
  {
    items == [] || (Ordered(items[0]) && OrderedItems(items[1..]))
  }

  predicate OrderedMembers(members: seq<Member>)
    decreases members
  {
    members == []
    || (Ordered(members[0].value) && Above(members[0].key, members[1..]) && OrderedMembers(members[1..]))
  }

  predicate Above(key: string, members: seq<Member>) {
    members == [] || (KeyLess(key, members[0].key) && Above(key, members[1..]))
  }

  lemma {:induction false} AboveTransitive(low: string, high: string, members: seq<Member>)
    requires KeyLess(low, high) && Above(high, members)
    ensures Above(low, members)
  {
    if members != [] {
      KeyLessTransitive(low, high, members[0].key);
      AboveTransitive(low, high, members[1..]);
    }
  }

  lemma {:induction false} AboveHasNot(key: string, members: seq<Member>)
    requires Above(key, members)
    ensures !HasKey(members, key)
  {
    if members != [] {
      KeyLessTotal(key, key);
      AboveHasNot(key, members[1..]);
    }
  }

  lemma {:induction false} InsertAbove(key: string, m: Member, sorted: seq<Member>)
    requires KeyLess(key, m.key) && Above(key, sorted)
    ensures Above(key, Insert(m, sorted))
  {
    if sorted == [] || KeyLess(m.key, sorted[0].key) {
      assert ([m] + sorted)[1..] == sorted;
    } else {
      InsertAbove(key, m, sorted[1..]);
      assert Insert(m, sorted)[1..] == Insert(m, sorted[1..]);
    }
  }

  lemma {:induction false} InsertIsOrdered(m: Member, sorted: seq<Member>)
    requires OrderedMembers(sorted) && Ordered(m.value) && !HasKey(sorted, m.key)
    ensures OrderedMembers(Insert(m, sorted))
  {
    if sorted == [] || KeyLess(m.key, sorted[0].key) {
      assert ([m] + sorted)[1..] == sorted;
      if sorted != [] { AboveTransitive(m.key, sorted[0].key, sorted[1..]); }
    } else {
      InsertIsOrdered(m, sorted[1..]);
      KeyLessTotal(m.key, sorted[0].key);
      InsertAbove(sorted[0].key, m, sorted[1..]);
      assert Insert(m, sorted)[1..] == Insert(m, sorted[1..]);
    }
  }

  /** Inserting a new key adds exactly that key to what the members denote. */
  lemma {:induction false} InsertAddsField(m: Member, sorted: seq<Member>)
    requires !HasKey(sorted, m.key)
    ensures Fields(Insert(m, sorted)) == Fields(sorted)[m.key := Denote(m.value)]
  {
    if sorted == [] || KeyLess(m.key, sorted[0].key) {
      assert ([m] + sorted)[1..] == sorted;
    } else {
      InsertAddsField(m, sorted[1..]);
      assert Insert(m, sorted)[1..] == Insert(m, sorted[1..]);
    }
  }

  lemma {:induction false} InsertKeys(m: Member, sorted: seq<Member>, key: string)
    ensures HasKey(Insert(m, sorted), key) <==> key == m.key || HasKey(sorted, key)
  {
    if sorted == [] || KeyLess(m.key, sorted[0].key) {
      assert ([m] + sorted)[1..] == sorted;
    } else {
      InsertKeys(m, sorted[1..], key);
      assert Insert(m, sorted)[1..] == Insert(m, sorted[1..]);
    }
  }

  lemma {:induction false} SortMembersKeys(members: seq<Member>, key: string)
    requires HasKey(SortMembers(members), key)
    ensures HasKey(members, key)
  {
    if members != [] {
      if members[0].key != "__proto__" {
        InsertKeys(Member(members[0].key, Sort(members[0].value)), SortMembers(members[1..]), key);
      }
      if members[0].key != key { SortMembersKeys(members[1..], key); }
    }
  }

  lemma {:induction false} SortIsOrdered(j: Json)
    requires WellFormed(j)
    ensures Ordered(Sort(j)) && WellFormed(Sort(j))
    ensures Denote(Sort(j)) == Denote(Strip(j))
    decreases j
  {
    match j
    case JArr(items) => SortItemsIsOrdered(items);
    case JObj(members) =>
      SortMembersIsOrdered(members);
    case _ =>
  }

  lemma {:induction false} SortItemsIsOrdered(items: seq<Json>)
    requires WellFormedItems(items)
    ensures OrderedItems(SortItems(items)) && WellFormedItems(SortItems(items))
    ensures DenoteAll(SortItems(items)) == DenoteAll(StripItems(items))
    decreases items
  {
    if items != [] {
      SortIsOrdered(items[0]);
      SortItemsIsOrdered(items[1..]);
      assert SortItems(items)[1..] == SortItems(items[1..]);
      assert StripItems(items)[1..] == StripItems(items[1..]);
    }
  }

  lemma {:induction false} InsertIsWellFormed(m: Member, sorted: seq<Member>)
    requires WellFormedMembers(sorted) && WellFormed(m.value) && !HasKey(sorted, m.key)
    ensures WellFormedMembers(Insert(m, sorted))
  {
    if sorted == [] || KeyLess(m.key, sorted[0].key) {
      assert ([m] + sorted)[1..] == sorted;
    } else {
      InsertIsWellFormed(m, sorted[1..]);
      InsertKeys(m, sorted[1..], sorted[0].key);
      assert Insert(m, sorted)[1..] == Insert(m, sorted[1..]);
    }
  }

  lemma {:induction false} SortMembersIsOrdered(members: seq<Member>)
    requires WellFormedMembers(members)
    ensures OrderedMembers(SortMembers(members)) && WellFormedMembers(SortMembers(members))
    ensures Fields(SortMembers(members)) == Fields(StripMembers(members))
    decreases members
  {
    if members != [] {
      SortMembersIsOrdered(members[1..]);
      if members[0].key != "__proto__" {
        var m := Member(members[0].key, Sort(members[0].value));
        SortIsOrdered(members[0].value);
        if HasKey(SortMembers(members[1..]), m.key) { SortMembersKeys(members[1..], m.key); }
        InsertIsOrdered(m, SortMembers(members[1..]));
        InsertAddsField(m, SortMembers(members[1..]));
        InsertIsWellFormed(m, SortMembers(members[1..]));
        assert StripMembers(members)[1..] == StripMembers(members[1..]);
      }
    }
  }

  // ---- An ordered value is determined by what it denotes ----

  lemma {:induction false} FieldsKeys(members: seq<Member>, key: string)
    ensures key in Fields(members) <==> HasKey(members, key)
  {
    if members != [] { FieldsKeys(members[1..], key); }
  }

  lemma FieldsEmpty(members: seq<Member>)
    ensures Fields(members) == map[] <==> members == []
  {
    if members != [] { assert members[0].key in Fields(members); }
  }

  lemma {:induction false} DenoteAllLength(items: seq<Json>)
    ensures |DenoteAll(items)| == |items|
  {
    if items != [] { DenoteAllLength(items[1..]); }
  }

  lemma {:induction false} OrderedIsDetermined(a: Json, b: Json)
    requires Ordered(a) && Ordered(b)
    requires Denote(a) == Denote(b)
    ensures a == b
    decreases a
  {
    match a
    case JArr(items) => OrderedItemsAreDetermined(items, b.items);
    case JObj(members) => OrderedMembersAreDetermined(members, b.members);
    case _ =>
  }

  lemma {:induction false} OrderedItemsAreDetermined(a: seq<Json>, b: seq<Json>)
    requires OrderedItems(a) && OrderedItems(b)
    requires DenoteAll(a) == DenoteAll(b)
    ensures a == b
    decreases a
  {
    DenoteAllLength(a);
    DenoteAllLength(b);
    if a != [] {
      assert DenoteAll(a)[0] == Denote(a[0]) && DenoteAll(a)[1..] == DenoteAll(a[1..]);
      assert DenoteAll(b)[0] == Denote(b[0]) && DenoteAll(b)[1..] == DenoteAll(b[1..]);
      OrderedIsDetermined(a[0], b[0]);
      OrderedItemsAreDetermined(a[1..], b[1..]);
      assert a == [a[0]] + a[1..] && b == [b[0]] + b[1..];
    }
  }

  lemma {:induction false} AboveIsLess(low: string, members: seq<Member>, key: string)
    requires Above(low, members) && HasKey(members, key)
    ensures KeyLess(low, key)
  {
    if members[0].key != key { AboveIsLess(low, members[1..], key); }
  }

  lemma LeastKeyIsFirst(a: seq<Member>, b: seq<Member>)
    requires OrderedMembers(a) && OrderedMembers(b)
    requires a != [] && b != []
    requires Fields(a) == Fields(b)
    ensures a[0].key == b[0].key
  {
    FieldsKeys(a, b[0].key);
    FieldsKeys(b, a[0].key);
    if a[0].key != b[0].key {
      AboveIsLess(a[0].key, a[1..], b[0].key);
      AboveIsLess(b[0].key, b[1..], a[0].key);
      KeyLessTotal(a[0].key, b[0].key);
      KeyLessTransitive(a[0].key, b[0].key, a[0].key);
    }
  }

  lemma TailFields(a: seq<Member>)
    requires OrderedMembers(a) && a != []
    ensures Fields(a[1..]) == Fields(a) - {a[0].key}
  {
    AboveHasNot(a[0].key, a[1..]);
    FieldsKeys(a[1..], a[0].key);
  }

  lemma {:induction false} OrderedMembersAreDetermined(a: seq<Member>, b: seq<Member>)
    requires OrderedMembers(a) && OrderedMembers(b)
    requires Fields(a) == Fields(b)
    ensures a == b
    decreases a
  {
    FieldsEmpty(a);
    FieldsEmpty(b);
    if a != [] {
      LeastKeyIsFirst(a, b);
      assert Fields(a)[a[0].key] == Denote(a[0].value);
      OrderedIsDetermined(a[0].value, b[0].value);
      TailFields(a);
      TailFields(b);
      OrderedMembersAreDetermined(a[1..], b[1..]);
      assert a == [a[0]] + a[1..] && b == [b[0]] + b[1..];
    }
  }

  // ---- Writing a value as text ----

  function HexDigit(n: nat): char
    requires n < 16
  {
    "0123456789abcdef"[n]
  }

  /** How `JSON.stringify` writes one character of a string. */
  function Escape(c: char): string {
    if c == '"' then "\\\""
    else if c == '\\' then "\\\\"
    else if c as int == 8 then "\\b"
    else if c as int == 9 then "\\t"
    else if c as int == 10 then "\\n"
    else if c as int == 12 then "\\f"
    else if c as int == 13 then "\\r"
    else if c as int < 32 then "\\u00" + [HexDigit(c as int / 16), HexDigit(c as int % 16)]
    else [c]
  }

  /** The escaped characters and the closing quote. */
  function Quoted(s: string): string {
    if s == "" then "\"" else Escape(s[0]) + Quoted(s[1..])
  }

  function Stringify(j: Json): string
    decreases j
  {
    match j
    case JNull => "null"
    case JBool(flag) => if flag then "true" else "false"
    case JNum(text) => text
    case JStr(text) => "\"" + Quoted(text)
    case JArr(items) => "[" + ItemsText(items, true)
    case JObj(members) => "{" + MembersText(members, true)
  }

  /** The remaining items, comma before each but the first, and the closing bracket. */
  function ItemsText(items: seq<Json>, first: bool): string
    decreases items
  {
    if items == [] then "]"
    else (if first then "" else ",") + Stringify(items[0]) + ItemsText(items[1..], false)
  }

  function MembersText(members: seq<Member>, first: bool): string
    decreases members
  {
    if members == [] then "}"
    else
      (if first then "" else ",") + "\"" + Quoted(members[0].key) + ":" + Stringify(members[0].value)
      + MembersText(members[1..], false)
  }

  /** Text that can follow a value: nothing, or a character that is no part of a numeral. */
  predicate Follows(rest: string) {
    rest == "" || !IsNumeralChar(rest[0])
  }

  function HexValue(c: char): nat {
    if '0' <= c <= '9' then c as int - '0' as int
    else if 'a' <= c <= 'f' then c as int - 'a' as int + 10
    else 0
  }

  /** The character an escaped text starts with, and the text after it. */
  function Unescape(t: string): (char, string)
    requires t != ""
  {
    if t[0] != '\\' || |t| < 2 then (t[0], t[1..])
    else if t[1] == 'u' && |t| >= 6 then ((HexValue(t[4]) * 16 + HexValue(t[5])) as char, t[6..])
    else if t[1] == 'b' then (8 as char, t[2..])
    else if t[1] == 't' then (9 as char, t[2..])
    else if t[1] == 'n' then (10 as char, t[2..])
    else if t[1] == 'f' then (12 as char, t[2..])
    else if t[1] == 'r' then (13 as char, t[2..])
    else (t[1], t[2..])
  }

  lemma HexInverts(n: nat)
    requires n < 32
    ensures (HexValue(HexDigit(n / 16)) * 16 + HexValue(HexDigit(n % 16))) == n
  {
  }

  lemma UnescapeInverts(c: char, x: string)
    ensures Unescape(Escape(c) + x) == (c, x)
    ensures (Escape(c) + x)[0] != '"'
  {
    var t := Escape(c) + x;
    assert t[0] == Escape(c)[0];
    assert x == t[|Escape(c)|..];
    if |Escape(c)| > 1 { assert t[1] == Escape(c)[1]; }
    if |Escape(c)| == 6 {
      assert t[4] == Escape(c)[4] && t[5] == Escape(c)[5];
      HexInverts(c as int);
    }
  }

  /** The string before the closing quote of an escaped text, and the text after the quote. */
  function Unquote(t: string): (string, string)
    decreases |t|
  {
    if t == "" || t[0] == '"' then ("", if t == "" then "" else t[1..])
    else
      var (c, rest) := Unescape(t);
      var (s, after) := Unquote(rest);
      ([c] + s, after)
  }

  lemma {:induction false} UnquoteInverts(s: string, x: string)
    ensures Unquote(Quoted(s) + x) == (s, x)
  {
    if s == "" {
      assert (Quoted(s) + x)[1..] == x;
    } else {
      var rest := Quoted(s[1..]) + x;
      assert Quoted(s) + x == Escape(s[0]) + rest;
      UnescapeInverts(s[0], rest);
      UnquoteInverts(s[1..], x);
      assert s == [s[0]] + s[1..];
    }
  }

  lemma QuotedIsPrefixFree(s: string, t: string, x: string, y: string)
    requires Quoted(s) + x == Quoted(t) + y
    ensures s == t && x == y
  {
    UnquoteInverts(s, x);
    UnquoteInverts(t, y);
  }

  /** How many characters of a text continue a numeral. */
  function NumeralRun(t: string): nat {
    if t != "" && IsNumeralChar(t[0]) then 1 + NumeralRun(t[1..]) else 0
  }

  lemma {:induction false} NumeralRunStops(s: string, x: string)
    requires forall i :: 0 <= i < |s| ==> IsNumeralChar(s[i])
    requires Follows(x)
    ensures NumeralRun(s + x) == |s|
  {
    if s == "" {
      assert s + x == x;
    } else {
      assert (s + x)[1..] == s[1..] + x;
      NumeralRunStops(s[1..], x);
    }
  }

  lemma NumeralIsPrefixFree(s: string, t: string, x: string, y: string)
    requires IsNumeral(s) && IsNumeral(t)
    requires Follows(x) && Follows(y)
    requires s + x == t + y
    ensures s == t && x == y
  {
    NumeralRunStops(s, x);
    NumeralRunStops(t, y);
    assert s == (s + x)[..|s|] && t == (t + y)[..|t|];
    SameTail(s, x, y);
  }

  /** The first character of a text tells the constructor. */
  function Kind(c: char): nat {
    if c == 'n' then 0 else if c == 't' || c == 'f' then 1 else if c == '"' then 3
    else if c == '[' then 4 else if c == '{' then 5 else if IsNumeralChar(c) then 2 else 6
  }

  function KindOf(j: Json): nat {
    match j
    case JNull => 0
    case JBool(_) => 1
    case JNum(_) => 2
    case JStr(_) => 3
    case JArr(_) => 4
    case JObj(_) => 5
  }

  lemma FirstCharacter(j: Json)
    requires WellFormed(j)
    ensures Stringify(j) != "" && Kind(Stringify(j)[0]) == KindOf(j)
  {
  }

  lemma SameKind(a: Json, b: Json, x: string, y: string)
    requires WellFormed(a) && WellFormed(b)
    requires Stringify(a) + x == Stringify(b) + y
    ensures KindOf(a) == KindOf(b)
  {
    FirstCharacter(a);
    FirstCharacter(b);
    assert (Stringify(a) + x)[0] == Stringify(a)[0];
    assert (Stringify(b) + y)[0] == Stringify(b)[0];
  }

  lemma ScalarIsPrefixFree(a: Json, b: Json, x: string, y: string)
    requires WellFormed(a) && WellFormed(b)
    requires KindOf(a) == KindOf(b) < 3
    requires Follows(x) && Follows(y)
    requires Stringify(a) + x == Stringify(b) + y
    ensures a == b && x == y
  {
    if a.JNum? {
      NumeralIsPrefixFree(a.text, b.text, x, y);
    } else {
      assert (Stringify(a) + x)[0] == Stringify(a)[0] && (Stringify(b) + y)[0] == Stringify(b)[0];
      SameTail(Stringify(a), x, y);
    }
  }

  /** The text of a string, array or object is its opening character and a body. */
  function BodyText(j: Json): string
    requires KindOf(j) >= 3
  {
    match j
    case JStr(text) => Quoted(text)
    case JArr(items) => ItemsText(items, true)
    case JObj(members) => MembersText(members, true)
  }

  function Opening(j: Json): string
    requires KindOf(j) >= 3
  {
    if j.JStr? then "\"" else if j.JArr? then "[" else "{"
  }

  lemma OpeningAndBody(j: Json, x: string)
    requires KindOf(j) >= 3
    ensures Stringify(j) + x == Opening(j) + (BodyText(j) + x)
  {
    assert Stringify(j) == Opening(j) + BodyText(j);
  }

  lemma SameBody(a: Json, b: Json, x: string, y: string)
    requires KindOf(a) == KindOf(b) >= 3
    requires Stringify(a) + x == Stringify(b) + y
    ensures BodyText(a) + x == BodyText(b) + y
  {
    OpeningAndBody(a, x);
    OpeningAndBody(b, y);
    SameTail(Opening(a), BodyText(a) + x, BodyText(b) + y);
  }

  lemma {:induction false} StringifyIsPrefixFree(a: Json, b: Json, x: string, y: string)
    requires WellFormed(a) && WellFormed(b)
    requires Follows(x) && Follows(y)
    requires Stringify(a) + x == Stringify(b) + y
    ensures a == b && x == y
    decreases a
  {
    SameKind(a, b, x, y);
    if KindOf(a) < 3 {
      ScalarIsPrefixFree(a, b, x, y);
    } else {
      SameBody(a, b, x, y);
      match a
      case JStr(text) => QuotedIsPrefixFree(text, b.text, x, y);
      case JArr(items) => ItemsArePrefixFree(items, b.items, true, x, y);
      case JObj(members) => MembersArePrefixFree(members, b.members, true, x, y);
    }
  }

  lemma ItemsTextFollows(items: seq<Json>, x: string)
    ensures Follows(ItemsText(items, false) + x)
  {
  }

  predicate StartsWith(t: string, c: char) {
    t != "" && t[0] == c
  }

  /** A list that has ended and one that goes on are told apart by the next character. */
  lemma ItemsTextStart(items: seq<Json>, first: bool, x: string)
    requires WellFormedItems(items)
    ensures items == [] <==> StartsWith(ItemsText(items, first) + x, ']')
  {
    if items != [] && first { FirstCharacter(items[0]); }
  }

  lemma ItemsTextSplit(items: seq<Json>, first: bool, x: string)
    requires items != []
    ensures ItemsText(items, first) + x
         == (if first then "" else ",") + (Stringify(items[0]) + (ItemsText(items[1..], false) + x))
  {
  }

  lemma {:induction false} ItemsArePrefixFree(a: seq<Json>, b: seq<Json>, first: bool, x: string, y: string)
    requires WellFormedItems(a) && WellFormedItems(b)
    requires ItemsText(a, first) + x == ItemsText(b, first) + y
    ensures a == b && x == y
    decreases a
  {
    ItemsTextStart(a, first, x);
    ItemsTextStart(b, first, y);
    if a == [] {
      SameTail("]", x, y);
    } else {
      var restA, restB := ItemsText(a[1..], false) + x, ItemsText(b[1..], false) + y;
      ItemsTextSplit(a, first, x);
      ItemsTextSplit(b, first, y);
      SameTail(if first then "" else ",", Stringify(a[0]) + restA, Stringify(b[0]) + restB);
      ItemsTextFollows(a[1..], x);
      ItemsTextFollows(b[1..], y);
      StringifyIsPrefixFree(a[0], b[0], restA, restB);
      ItemsArePrefixFree(a[1..], b[1..], false, x, y);
      assert a == [a[0]] + a[1..] && b == [b[0]] + b[1..];
    }
  }

  lemma MembersTextFollows(members: seq<Member>, x: string)
    ensures Follows(MembersText(members, false) + x)
  {
  }

  lemma MembersTextStart(members: seq<Member>, first: bool, x: string)
    ensures members == [] <==> StartsWith(MembersText(members, first) + x, '}')
  {
  }

  /** What follows the opening quote of a first member. */
  function MemberText(m: Member, rest: string): string {
    Quoted(m.key) + (":" + (Stringify(m.value) + rest))
  }

  lemma MemberIsPrefixFree(m: Member, n: Member, x: string, y: string)
    requires MemberText(m, x) == MemberText(n, y)
    ensures m.key == n.key && Stringify(m.value) + x == Stringify(n.value) + y
  {
    QuotedIsPrefixFree(m.key, n.key, ":" + (Stringify(m.value) + x), ":" + (Stringify(n.value) + y));
    SameTail(":", Stringify(m.value) + x, Stringify(n.value) + y);
  }

  lemma MembersTextSplit(members: seq<Member>, first: bool, x: string)
    requires members != []
    ensures MembersText(members, first) + x
         == (if first then "\"" else ",\"") + MemberText(members[0], MembersText(members[1..], false) + x)
  {
  }

  lemma {:induction false} MembersArePrefixFree(a: seq<Member>, b: seq<Member>, first: bool, x: string, y: string)
    requires WellFormedMembers(a) && WellFormedMembers(b)
    requires MembersText(a, first) + x == MembersText(b, first) + y
    ensures a == b && x == y
    decreases a
  {
    MembersTextStart(a, first, x);
    MembersTextStart(b, first, y);
    if a == [] {
      SameTail("}", x, y);
    } else {
      var restA, restB := MembersText(a[1..], false) + x, MembersText(b[1..], false) + y;
      MembersTextSplit(a, first, x);
      MembersTextSplit(b, first, y);
      SameTail(if first then "\"" else ",\"", MemberText(a[0], restA), MemberText(b[0], restB));
      MemberIsPrefixFree(a[0], b[0], restA, restB);
      MembersTextFollows(a[1..], x);
      MembersTextFollows(b[1..], y);
      StringifyIsPrefixFree(a[0].value, b[0].value, restA, restB);
      MembersArePrefixFree(a[1..], b[1..], false, x, y);
      assert a == [a[0]] + a[1..] && b == [b[0]] + b[1..];
    }
  }

  // ---- Canonical metadata ----

  /** Whether `Object.keys` of the value is non-empty. */
  predicate HasKeys(j: Json) {
    match j
    case JObj(members) => members != []
    case JArr(items) => items != []
    case JStr(text) => text != ""
    case _ => false
  }

  /** `canonicalMetadata`: absent, null and empty metadata have no canonical text. */
  function CanonicalText(metadata: Option<Json>): Option<string> {
    if metadata.None? || !HasKeys(metadata.value) then None else Some(Stringify(Sort(metadata.value)))
  }

  /** What the canonical text of metadata stands for. */
  function Meaning(metadata: Option<Json>): Option<Tree> {
    if metadata.None? || !HasKeys(metadata.value) then None else Some(Denote(Strip(metadata.value)))
  }

  function ItemTexts(items: seq<Json>): seq<string> {
    seq(|items|, i requires 0 <= i < |items| => Stringify(items[i]))
  }

  function PairText(m: Member): string {
    "\"" + Quoted(m.key) + ":" + Stringify(m.value)
  }

  function MemberTexts(members: seq<Member>): seq<string> {
    seq(|members|, i requires 0 <= i < |members| => PairText(members[i]))
  }

  lemma Regroup(comma: string, quote: string, key: string, text: string, more: string)
    ensures comma + quote + key + ":" + text + more == comma + ((quote + key + ":" + text) + more)
  {
  }

  lemma NextPair(members: seq<Member>)
    requires members != []
    ensures MembersText(members, true) == PairText(members[0]) + MembersText(members[1..], false)
    ensures MembersText(members, false) == "," + (PairText(members[0]) + MembersText(members[1..], false))
  {
    var key, text := Quoted(members[0].key), Stringify(members[0].value);
    var all := PairText(members[0]) + MembersText(members[1..], false);
    Regroup("", "\"", key, text, MembersText(members[1..], false));
    Regroup(",", "\"", key, text, MembersText(members[1..], false));
    assert "" + all == all;
  }

  /** The text after one part: the closing bracket, or a comma, the joined others and the bracket. */
  function After(parts: seq<string>, close: string): string {
    if parts == [] then close else "," + Join(",", parts) + close
  }

  lemma JoinedBehind(part: string, parts: seq<string>, close: string)
    ensures part + After(parts, close) == Join(",", [part] + parts) + close
  {
    assert ([part] + parts)[1..] == parts;
  }

  lemma {:induction false} ItemsTextIsJoined(items: seq<Json>)
    ensures ItemsText(items, true) == Join(",", ItemTexts(items)) + "]"
    ensures ItemsText(items, false) == After(ItemTexts(items), "]")
    decreases items
  {
    if items != [] {
      var t, more := Stringify(items[0]), items[1..];
      ItemsTextIsJoined(more);
      assert ItemTexts(items) == [t] + ItemTexts(more);
      JoinedBehind(t, ItemTexts(more), "]");
      assert ItemsText(items, true) == t + ItemsText(more, false);
      assert ItemsText(items, false) == "," + (t + ItemsText(more, false));
    }
  }

  lemma {:induction false} MembersTextIsJoined(members: seq<Member>)
    ensures MembersText(members, true) == Join(",", MemberTexts(members)) + "}"
    ensures MembersText(members, false) == After(MemberTexts(members), "}")
    decreases members
  {
    if members != [] {
      var t, more := PairText(members[0]), members[1..];
      MembersTextIsJoined(more);
      assert MemberTexts(members) == [t] + MemberTexts(more);
      JoinedBehind(t, MemberTexts(more), "}");
      NextPair(members);
    }
  }

  /** Arrays and objects are written as the comma-joined texts of their parts between brackets, scalars by name. */
  lemma CompoundsAreJoined(items: seq<Json>, members: seq<Member>)
    ensures Stringify(JNull) == "null" && Stringify(JBool(true)) == "true" && Stringify(JBool(false)) == "false"
    ensures Stringify(JArr(items)) == "[" + Join(",", ItemTexts(items)) + "]"
    ensures Stringify(JObj(members)) == "{" + Join(",", MemberTexts(members)) + "}"
  {
    ItemsTextIsJoined(items);
    MembersTextIsJoined(members);
  }

  /** Two metadata values have the same canonical text exactly when they are equal up to key order at every depth. */
  lemma SameTextIffSameMeaning(a: Option<Json>, b: Option<Json>)
    requires a.Some? ==> WellFormed(a.value)
    requires b.Some? ==> WellFormed(b.value)
    ensures CanonicalText(a) == CanonicalText(b) <==> Meaning(a) == Meaning(b)
  {
    if a.Some? && b.Some? {
      var sortedA, sortedB := Sort(a.value), Sort(b.value);
      SortIsOrdered(a.value);
      SortIsOrdered(b.value);
      if Stringify(sortedA) == Stringify(sortedB) {
        assert Stringify(sortedA) + "" == Stringify(sortedB) + "";
        StringifyIsPrefixFree(sortedA, sortedB, "", "");
      }
      if Denote(sortedA) == Denote(sortedB) { OrderedIsDetermined(sortedA, sortedB); }
    }
  }

  /** Without `__proto__` keys nothing at all is lost but the order of keys. */
  lemma SameTextIffSameTree(a: Json, b: Json)
    requires WellFormed(a) && WellFormed(b)
    requires HasKeys(a) && HasKeys(b)
    requires ProtoFree(a) && ProtoFree(b)
    ensures CanonicalText(Some(a)) == CanonicalText(Some(b)) <==> Denote(a) == Denote(b)
  {
    StripKeepsProtoFree(a);
    StripKeepsProtoFree(b);
    SameTextIffSameMeaning(Some(a), Some(b));
  }

  /** A `__proto__` key is not covered: any two objects that differ only below one have the same canonical text. */
  lemma ProtoIsNotCovered(a: Json, b: Json, members: seq<Member>)
    ensures CanonicalText(Some(JObj([Member("__proto__", a)] + members)))
         == CanonicalText(Some(JObj([Member("__proto__", b)] + members)))
    ensures a != b ==> JObj([Member("__proto__", a)] + members) != JObj([Member("__proto__", b)] + members)
  {
    var withA, withB := [Member("__proto__", a)] + members, [Member("__proto__", b)] + members;
    assert withA[0] == Member("__proto__", a) && withB[0] == Member("__proto__", b);
    assert withA[1..] == members == withB[1..];
    assert SortMembers(withA) == SortMembers(members) == SortMembers(withB);
  }
}
