/** Text and free-form values as the audit ledger writes and reads them back (internal/audit/ledger.go):
    strings that need not be valid UTF-8, numbers that come back as floating point, objects that come
    back with their keys sorted. Two values are equal here when their JSON texts are. */
module JsonText {
  import opened Ordering
  import opened Float64

  // --- Strings ------------------------------------------------------------------------

  /** A character, or a byte that belongs to none. Such bytes are all written alike, as an escape of the
      replacement character, which the character itself is not written as. */
  datatype Glyph = Rune(c: char) | BadByte

  type Text = seq<Glyph>

  const REPLACEMENT := '\U{FFFD}'

  function Chars(t: Text): (s: string)
    ensures |s| == |t|
  {
    seq(|t|, i requires 0 <= i < |t| => if t[i].Rune? then t[i].c else REPLACEMENT)
  }

  function Runes(s: string): (t: Text)
    ensures |t| == |s|
  {
    seq(|s|, i requires 0 <= i < |s| => Rune(s[i]))
  }

  /** A written string read back. */
  function ReloadText(t: Text): Text {
    Runes(Chars(t))
  }

  /** Valid UTF-8. */
  predicate Clean(t: Text) {
    BadByte !in t
  }

  lemma ReloadTextIff(t: Text)
    ensures ReloadText(t) == t <==> Clean(t)
    ensures Clean(ReloadText(t)) && Chars(ReloadText(t)) == Chars(t)
  {
    if BadByte in t {
      var i :| 0 <= i < |t| && t[i] == BadByte;
      assert ReloadText(t)[i] != t[i];
    }
  }

  predicate White(g: Glyph) {
    g.Rune? && (g.c == ' ' || '\t' <= g.c <= '\r' || g.c == '\U{0085}' || g.c == '\U{00A0}' || g.c == '\U{1680}'
                || '\U{2000}' <= g.c <= '\U{200A}' || g.c == '\U{2028}' || g.c == '\U{2029}' || g.c == '\U{202F}'
                || g.c == '\U{205F}' || g.c == '\U{3000}')
  }

  function Trim(t: Text): Text {
    if t == [] then t
    else if White(t[0]) then Trim(t[1..])
    else if White(t[|t| - 1]) then Trim(t[..|t| - 1])
    else t
  }

  /** The code points that count as white space. */
  const SPACES := {9, 10, 11, 12, 13, 32, 133, 160, 5760, 8192, 8193, 8194, 8195, 8196, 8197, 8198, 8199, 8200, 8201, 8202,
                   8232, 8233, 8239, 8287, 12288}

  lemma WhiteIff(g: Glyph)
    ensures White(g) <==> g.Rune? && g.c as int in SPACES
  {
  }

  /** Trimming leaves the text between the outer spaces. */
  lemma {:induction false} TrimIs(front: Text, t: Text, back: Text)
    requires forall g :: g in front || g in back ==> g.Rune? && g.c as int in SPACES
    requires t != [] ==> !White(t[0]) && !White(t[|t| - 1])
    ensures Trim(front + t + back) == t
    decreases |front| + |back|
  {
    var s := front + t + back;
    if front != [] {
      WhiteIff(front[0]);
      assert front[0] in front && s[0] == front[0];
      assert s[1..] == front[1..] + t + back;
      TrimIs(front[1..], t, back);
    } else if t == [] && back != [] {
      WhiteIff(back[0]);
      assert s == back && back[0] in back;
      assert s[1..] == [] + t + back[1..];
      TrimIs([], t, back[1..]);
    } else if back != [] {
      var n := |back| - 1;
      WhiteIff(back[n]);
      assert back[n] in back && s[0] == t[0] && s[|s| - 1] == back[n];
      assert s[..|s| - 1] == [] + t + back[..n];
      TrimIs([], t, back[..n]);
    } else {
      assert s == t;
    }
  }

  /** Trimming removes no damage. */
  lemma {:induction false} TrimClean(t: Text)
    ensures Clean(Trim(t)) <==> Clean(t)
  {
    if t == [] {
    } else if White(t[0]) {
      assert t == [t[0]] + t[1..];
      TrimClean(t[1..]);
    } else if White(t[|t| - 1]) {
      assert t == t[..|t| - 1] + [t[|t| - 1]];
      TrimClean(t[..|t| - 1]);
    }
  }

  // --- Values --------------------------------------------------------------------------

  /** `Whole` is any integer kind, `Fraction` the text of a floating-point number that is not whole. */
  datatype Value =
    | Null
    | Boolean(yes: bool)
    | Whole(n: int)
    | Fraction(text: string)
    | Str(t: Text)
    | List(items: seq<Value>)
    | Object(members: seq<Member>)

  /** Members stand in the order they are written: sorted for a map, as declared for a record. */
  datatype Member = Member(key: Text, value: Value)

  predicate KeyLess(a: Member, b: Member) {
    TextLess(Chars(a.key), Chars(b.key))
  }

  /** A decoded object with one more member; a repeated key keeps its last value. */
  function Put(ms: seq<Member>, m: Member): seq<Member> {
    if ms == [] then [m]
    else if ms[0].key == m.key then [m] + ms[1..]
    else if KeyLess(m, ms[0]) then [m] + ms
    else [ms[0]] + Put(ms[1..], m)
  }

  /** A written value read back into a free-form field. */
  function Reload(v: Value): Value
    decreases v, 1
  {
    match v
    case Whole(n) => Whole(Reprinted(n))
    case Str(t) => Str(ReloadText(t))
    case List(items) => List(ReloadItems(items))
    case Object(members) => Object(ReloadMembers(members))
    case _ => v
  }

  function ReloadItems(items: seq<Value>): seq<Value>
    decreases items, 0
  {
    if items == [] then []
    else ReloadItems(items[..|items| - 1]) + [Reload(items[|items| - 1])]
  }

  function ReloadMembers(ms: seq<Member>): seq<Member>
    decreases ms, 0
  {
    if ms == [] then []
    else
      var m := ms[|ms| - 1];
      Put(ReloadMembers(ms[..|ms| - 1]), Member(ReloadText(m.key), Reload(m.value)))
  }

  // --- What survives -----------------------------------------------------------------------

  /** The values that read back as they were: every string valid, every whole number its own shortest
      floating-point text, the keys of every object valid and in ascending order. */
  predicate Stable(v: Value)
    decreases v, 1
  {
    match v
    case Whole(n) => Reprinted(n) == n
    case Str(t) => Clean(t)
    case List(items) => forall x :: x in items ==> Stable(x)
    case Object(members) => StableMembers(members)
    case _ => true
  }

  predicate StableMembers(ms: seq<Member>)
    decreases ms, 0
  {
    (forall m :: m in ms ==> Clean(m.key) && Stable(m.value)) && Sorted(ms)
  }

  predicate Sorted(ms: seq<Member>) {
    forall i, j :: 0 <= i < j < |ms| ==> KeyLess(ms[i], ms[j])
  }

  ghost predicate CleanKeys(ms: seq<Member>) {
    forall m :: m in ms ==> Clean(m.key)
  }

  /** Valid keys are told apart by their characters. */
  lemma SameKey(a: Text, b: Text)
    requires Clean(a) && Clean(b) && Chars(a) == Chars(b)
    ensures a == b
  {
    ReloadTextIff(a);
    ReloadTextIff(b);
  }

  /** Decoding keeps members sorted, under valid keys. */
  lemma {:induction false} PutSorted(ms: seq<Member>, m: Member)
    requires Sorted(ms) && CleanKeys(ms) && Clean(m.key)
    ensures Sorted(Put(ms, m)) && CleanKeys(Put(ms, m))
    ensures forall x :: x in Put(ms, m) ==> x == m || x in ms
  {
    TextOrder();
    if ms != [] {
      var head, rest := ms[0], ms[1..];
      assert ms == [head] + rest;
      if head.key == m.key {
        assert forall x :: x in rest ==> KeyLess(head, x) && KeyLess(m, x);
      } else if KeyLess(m, head) {
        assert forall x :: x in rest ==> KeyLess(head, x);
        assert forall x :: x in ms ==> KeyLess(m, x);
      } else {
        PutSorted(rest, m);
        if Chars(head.key) == Chars(m.key) {
          SameKey(head.key, m.key);
        }
        assert KeyLess(head, m);
        assert forall x :: x in rest ==> KeyLess(head, x);
        assert forall x :: x in Put(rest, m) ==> KeyLess(head, x);
      }
    }
  }

  lemma {:induction false} ReloadedSorted(ms: seq<Member>)
    ensures Sorted(ReloadMembers(ms)) && CleanKeys(ReloadMembers(ms))
  {
    if ms != [] {
      var m := ms[|ms| - 1];
      ReloadedSorted(ms[..|ms| - 1]);
      ReloadTextIff(m.key);
      PutSorted(ReloadMembers(ms[..|ms| - 1]), Member(ReloadText(m.key), Reload(m.value)));
    }
  }

  /** A member beyond all others goes to the end. */
  lemma {:induction false} PutLast(ms: seq<Member>, m: Member)
    requires forall x :: x in ms ==> KeyLess(x, m)
    ensures Put(ms, m) == ms + [m]
  {
    if ms != [] {
      var head, rest := ms[0], ms[1..];
      assert ms == [head] + rest && head in ms;
      TextConnected(Chars(head.key), Chars(m.key));
      assert !KeyLess(m, head) && head.key != m.key;
      assert forall x :: x in rest ==> x in ms;
      PutLast(rest, m);
    }
  }

  /** Members in order under valid keys stay where they are. */
  lemma {:induction false} InOrder(ms: seq<Member>)
    requires Sorted(ms) && CleanKeys(ms)
    ensures |ReloadMembers(ms)| == |ms|
    ensures forall i :: 0 <= i < |ms| ==> ReloadMembers(ms)[i] == Member(ms[i].key, Reload(ms[i].value))
  {
    if ms != [] {
      var n := |ms| - 1;
      var front, m := ms[..n], ms[n];
      assert m in ms;
      InOrder(front);
      ReloadTextIff(m.key);
      var before, next := ReloadMembers(front), Member(ReloadText(m.key), Reload(m.value));
      forall x | x in before ensures KeyLess(x, next) {
        var i :| 0 <= i < n && before[i] == x;
        assert KeyLess(ms[i], ms[n]);
      }
      PutLast(before, next);
    }
  }

  lemma {:induction false} ItemsPointwise(items: seq<Value>)
    ensures |ReloadItems(items)| == |items|
    ensures forall i :: 0 <= i < |items| ==> ReloadItems(items)[i] == Reload(items[i])
  {
    if items != [] {
      ItemsPointwise(items[..|items| - 1]);
    }
  }

  /** A value reads back as it was exactly when it is stable. */
  lemma {:induction false} ReloadIff(v: Value)
    ensures Reload(v) == v <==> Stable(v)
    decreases v, 1
  {
    match v
    case Str(t) =>
      ReloadTextIff(t);
    case List(items) =>
      ItemsPointwise(items);
      forall i | 0 <= i < |items| ensures Reload(items[i]) == items[i] <==> Stable(items[i]) {
        ReloadIff(items[i]);
      }
    case Object(members) =>
      ReloadMembersIff(members);
    case _ =>
  }

  lemma {:induction false} ReloadMembersIff(ms: seq<Member>)
    ensures ReloadMembers(ms) == ms <==> StableMembers(ms)
    decreases ms, 0
  {
    ReloadedSorted(ms);
    if Sorted(ms) && CleanKeys(ms) {
      InOrder(ms);
      forall i | 0 <= i < |ms| ensures Reload(ms[i].value) == ms[i].value <==> Stable(ms[i].value) {
        ReloadIff(ms[i].value);
      }
    }
  }

  // --- Sizes in bytes -------------------------------------------------------------------------

  function GlyphSize(g: Glyph): nat {
    match g
    case BadByte => 6
    case Rune(c) =>
      if c in {'"', '\\', '\n', '\r', '\t', '\U{0008}', '\U{000C}'} then 2
      else if c < ' ' || c in {'<', '>', '&', '\U{2028}', '\U{2029}'} then 6
      else if c < '\U{0080}' then 1
      else if c < '\U{0800}' then 2
      else if c < '\U{10000}' then 3
      else 4
  }

  function Sum(t: Text): nat {
    if t == [] then 0 else Sum(t[..|t| - 1]) + GlyphSize(t[|t| - 1])
  }

  /** A quoted string. */
  function TextSize(t: Text): nat {
    2 + Sum(t)
  }

  function DecimalSize(n: int): nat
    decreases if n < 0 then 1 - n else n
  {
    if n < 0 then 1 + DecimalSize(-n) else if n < 10 then 1 else 1 + DecimalSize(n / 10)
  }

  function ValueSize(v: Value): nat
    decreases v, 1
  {
    match v
    case Null => 4
    case Boolean(yes) => if yes then 4 else 5
    case Whole(n) => DecimalSize(n)
    case Fraction(text) => |text|
    case Str(t) => TextSize(t)
    case List(items) => 2 + ItemsSize(items)
    case Object(members) => 2 + MembersSize(members)
  }

  /** The items with the commas between them. */
  function ItemsSize(items: seq<Value>): nat
    decreases items, 0
  {
    if items == [] then 0
    else ItemsSize(items[..|items| - 1]) + ValueSize(items[|items| - 1]) + if |items| == 1 then 0 else 1
  }

  function MembersSize(ms: seq<Member>): nat
    decreases ms, 0
  {
    if ms == [] then 0
    else
      var m := ms[|ms| - 1];
      MembersSize(ms[..|ms| - 1]) + TextSize(m.key) + 1 + ValueSize(m.value) + if |ms| == 1 then 0 else 1
  }

  lemma {:induction false} SizeAtLeast(t: Text)
    ensures |t| <= Sum(t)
  {
    if t != [] {
      SizeAtLeast(t[..|t| - 1]);
    }
  }
}
