/** The composed ids: `<tab>:<leaf>` for a pane, and `<pane>@<n>` for one spawn in it. */
module Identity {
  import opened Prelude

  datatype Error =
    | PaneKeyShape(got: string)
    | Segment(segment: string, value: string)
    | IncarnationShape(got: string)
    | Generation(got: string)

  datatype Result<T> = Ok(value: T) | Err(error: Error)

  // ----- Segments -----

  /** `char::is_whitespace` and `char::is_control`. */
  predicate Blank(c: char) {
    var n := c as int;
    || n <= 0x20 || 0x7F <= n <= 0xA0 || n == 0x1680 || 0x2000 <= n <= 0x200A
    || n == 0x2028 || n == 0x2029 || n == 0x202F || n == 0x205F || n == 0x3000
  }

  predicate Plain(value: string) {
    value != [] && forall c :: c in value ==> c != ':' && c != '@' && !Blank(c)
  }

  /** The first `c`, or the length. */
  function Find(s: string, c: char): (n: nat)
    ensures n <= |s| && c !in s[..n] && (n < |s| ==> s[n] == c)
  {
    if s == [] || s[0] == c then 0 else 1 + Find(s[1..], c)
  }

  /** One past the last `c`, or nothing. */
  function FindLast(s: string, c: char): (n: nat)
    ensures n <= |s| && c !in s[n..] && (n > 0 ==> s[n - 1] == c)
  {
    if s == [] || s[|s| - 1] == c then |s| else FindLast(s[..|s| - 1], c)
  }

  lemma {:induction false} FindAt(a: string, c: char, b: string)
    requires c !in a
    ensures Find(a + [c] + b, c) == |a|
  {
    var s := a + [c] + b;
    if a != [] {
      assert s[1..] == a[1..] + [c] + b;
      FindAt(a[1..], c, b);
    }
  }

  lemma {:induction false} FindLastAt(a: string, c: char, b: string)
    requires c !in b
    ensures FindLast(a + [c] + b, c) == |a| + 1
  {
    var s := a + [c] + b;
    if b != [] {
      assert s[..|s| - 1] == a + [c] + b[..|b| - 1];
      FindLastAt(a, c, b[..|b| - 1]);
    }
  }

  // ----- Panes -----

  datatype PaneKey = PaneKey(text: string) {
    /** At the first `:`, or all of it. */
    function Split(): (string, string) {
      var n := Find(text, ':');
      if n == |text| then (text, []) else (text[..n], text[n + 1..])
    }

    function TabId(): string {
      Split().0
    }

    function LeafId(): string {
      Split().1
    }
  }

  function NewPane(tab: string, leaf: string): Result<PaneKey> {
    if !Plain(tab) then Err(Segment("tabId", tab))
    else if !Plain(leaf) then Err(Segment("leafId", leaf))
    else Ok(PaneKey(tab + [':'] + leaf))
  }

  function ParsePane(s: string): Result<PaneKey> {
    var n := Find(s, ':');
    if n == |s| then Err(PaneKeyShape(s)) else NewPane(s[..n], s[n + 1..])
  }

  /** A pane that was composed, or read. */
  ghost predicate IsPane(p: PaneKey) {
    exists tab, leaf :: NewPane(tab, leaf) == Ok(p)
  }

  /** Composing and reading undo each other, and a key is its two halves. */
  lemma PaneExactly(tab: string, leaf: string, s: string)
    ensures Plain(tab) && Plain(leaf) ==>
      var p := PaneKey(tab + [':'] + leaf);
      NewPane(tab, leaf) == Ok(p) == ParsePane(p.text) && p.TabId() == tab && p.LeafId() == leaf
    ensures ParsePane(s).Ok? ==> ParsePane(s).value.text == s && IsPane(ParsePane(s).value)
    ensures ParsePane(s).Ok? <==> exists p :: IsPane(p) && p.text == s
  {
    if Plain(tab) && Plain(leaf) {
      ComposedPane(tab, leaf);
    }
    if ParsePane(s).Ok? {
      var n := Find(s, ':');
      assert NewPane(s[..n], s[n + 1..]).Ok?;
      assert s == s[..n] + [':'] + s[n + 1..];
    } else if p :| IsPane(p) && p.text == s {
      var a, b :| NewPane(a, b) == Ok(p);
      ComposedPane(a, b);
    }
  }

  lemma ComposedPane(tab: string, leaf: string)
    requires Plain(tab) && Plain(leaf)
    ensures var p := PaneKey(tab + [':'] + leaf);
      NewPane(tab, leaf) == Ok(p) == ParsePane(p.text) && p.Split() == (tab, leaf)
  {
    var s := tab + [':'] + leaf;
    FindAt(tab, ':', leaf);
    assert s[..|tab|] == tab && s[|tab| + 1..] == leaf;
  }

  lemma PaneHasNoAt(p: PaneKey)
    requires IsPane(p)
    ensures '@' !in p.text && ParsePane(p.text) == Ok(p)
  {
    var tab, leaf :| NewPane(tab, leaf) == Ok(p);
    ComposedPane(tab, leaf);
  }

  /** What may not be in a segment: nothing, a separator, a space or control character of ASCII or of Unicode. */
  lemma RefusedSegments(value: string, c: char)
    requires c in value || value == []
    requires c == ':' || c == '@' || c as int < 0x21 || c as int == 0x7F || c as int == 0x85 || c as int == 0xA0
             || c as int == 0x2003 || c as int == 0x2028 || c as int == 0x3000 || value == []
    ensures forall other :: NewPane(value, other) == Err(Segment("tabId", value))
    ensures forall other :: Plain(other) ==> NewPane(other, value) == Err(Segment("leafId", value))
  {
  }

  /** And what may: anything else that is printed. */
  lemma AcceptedSegments(tab: string, leaf: string)
    requires tab != [] && leaf != []
    requires forall c :: c in tab + leaf ==> 0x21 <= c as int <= 0x7E && c != ':' && c != '@'
    ensures NewPane(tab, leaf) == Ok(PaneKey(tab + [':'] + leaf))
  {
    assert forall c :: c in tab ==> c in tab + leaf;
    assert forall c :: c in leaf ==> c in tab + leaf;
  }

  /** A string without the separator is no pane. */
  lemma PaneShape(s: string)
    ensures ':' !in s <==> ParsePane(s) == Err(PaneKeyShape(s))
  {
    var n := Find(s, ':');
    if n < |s| {
      assert s[n] in s;
    } else {
      assert s[..n] == s;
    }
  }

  // ----- Decimals -----

  predicate AllDigits(s: string) {
    forall i :: 0 <= i < |s| ==> '0' <= s[i] <= '9'
  }

  predicate Digits(s: string) {
    s != [] && AllDigits(s)
  }

  function DigitValue(c: char): (d: int)
    requires '0' <= c <= '9'
    ensures 0 <= d < 10
  {
    c as int - '0' as int
  }

  function Digit(d: int): (c: char)
    requires 0 <= d < 10
    ensures '0' <= c <= '9' && DigitValue(c) == d
  {
    ('0' as int + d) as char
  }

  lemma DigitBack(c: char)
    requires '0' <= c <= '9'
    ensures Digit(DigitValue(c)) == c
  {
  }

  function Value(s: string): nat
    requires AllDigits(s)
  {
    if s == [] then 0 else Value(s[..|s| - 1]) * 10 + DigitValue(s[|s| - 1])
  }

  function Show(n: nat): (s: string)
    ensures Digits(s)
  {
    (if n < 10 then [] else Show(n / 10)) + [Digit(n % 10)]
  }

  /** Leading zeros dropped; the last digit stays. */
  function Dropped(s: string): string {
    if |s| > 1 && s[0] == '0' then Dropped(s[1..]) else s
  }

  lemma {:induction false} ValueShow(n: nat)
    ensures Value(Show(n)) == n && (|Show(n)| > 1 ==> Show(n)[0] != '0')
    decreases n
  {
    var s, last := Show(n), Digit(n % 10);
    assert DigitValue(last) == n % 10;
    if n >= 10 {
      ValueShow(n / 10);
      assert s == Show(n / 10) + [last] && s[..|s| - 1] == Show(n / 10);
      if |Show(n / 10)| == 1 {
        assert s[0] == Digit(n / 10 % 10);
      }
    } else {
      assert s == [last] && s[..0] == [];
    }
  }

  lemma {:induction false} ShowNonzero(s: string)
    requires Digits(s) && s[0] != '0'
    ensures Show(Value(s)) == s && Value(s) > 0
  {
    var front, last := s[..|s| - 1], s[|s| - 1];
    assert s == front + [last] && '0' <= last <= '9';
    if front == [] {
      ShowOne(last);
    } else {
      assert front[0] == s[0];
      ShowNonzero(front);
      ShowMore(front, last);
    }
  }

  lemma ShowValue(s: string)
    requires Digits(s) && (|s| > 1 ==> s[0] != '0')
    ensures Show(Value(s)) == s
  {
    if s[0] == '0' {
      ShowOne('0');
      assert s == ['0'];
    } else {
      ShowNonzero(s);
    }
  }

  lemma ShowOne(last: char)
    requires '0' <= last <= '9'
    ensures Value([last]) == DigitValue(last) && Show(Value([last])) == [last]
  {
    DigitBack(last);
    assert [last][..0] == [];
  }

  lemma ShowMore(front: string, last: char)
    requires AllDigits(front) && '0' <= last <= '9' && Show(Value(front)) == front && Value(front) > 0
    ensures AllDigits(front + [last])
    ensures Value(front + [last]) > 0 && Show(Value(front + [last])) == front + [last]
  {
    ValueMore(front, last);
    DigitBack(last);
    ShowStep(Value(front), DigitValue(last));
    assert Show(Value(front) * 10 + DigitValue(last)) == front + [last];
  }

  lemma ValueMore(front: string, last: char)
    requires AllDigits(front) && '0' <= last <= '9'
    ensures AllDigits(front + [last]) && Value(front + [last]) == Value(front) * 10 + DigitValue(last)
  {
    assert (front + [last])[..|front|] == front;
  }

  lemma ShowStep(front: nat, last: nat)
    requires last < 10 && front > 0
    ensures Show(front * 10 + last) == Show(front) + [Digit(last)]
  {
    assert (front * 10 + last) / 10 == front && (front * 10 + last) % 10 == last;
  }

  lemma {:induction false} ValueDropped(s: string)
    requires Digits(s)
    ensures var d := Dropped(s);
      Digits(d) && (|d| > 1 ==> d[0] != '0') && Value(d) == Value(s) && |d| <= |s| && d == s[|s| - |d|..]
  {
    if |s| > 1 && s[0] == '0' {
      ValueZero(s[1..]);
      assert ['0'] + s[1..] == s;
      ValueDropped(s[1..]);
    }
  }

  lemma {:induction false} ValueZero(s: string)
    requires AllDigits(s)
    ensures Value(['0'] + s) == Value(s)
  {
    var z := ['0'] + s;
    if s == [] {
      assert z[..0] == [];
    } else {
      assert z[..|z| - 1] == ['0'] + s[..|s| - 1];
      ValueZero(s[..|s| - 1]);
    }
  }

  /** The digits are the usual ones, and each place is ten of the next. */
  lemma UsualDecimal(n: nat, d: int)
    requires 0 <= d < 10
    ensures Digit(d) == "0123456789"[d] && DigitValue("0123456789"[d]) == d && Show(d) == ["0123456789"[d]]
    ensures n > 0 ==> Show(10 * n + d) == Show(n) + ["0123456789"[d]]
  {
    if n > 0 {
      ShowStep(n, d);
    }
    assert [] + [Digit(d)] == [Digit(d)];
  }

  /** `u32::from_str` on digits: nothing when the value does not fit. */
  function ParseU32(s: string): Option<U32>
    requires AllDigits(s)
  {
    if s == [] || Value(s) > U32_MAX then None else Some(Value(s))
  }

  // ----- Incarnations -----

  datatype Incarnation = Incarnation(text: string) {
    /** At the last `@`, or all of it. */
    function Pane(): PaneKey {
      var n := FindLast(text, '@');
      if n == 0 then PaneKey(text) else PaneKey(text[..n - 1])
    }

    function Generation(): U32 {
      var n := FindLast(text, '@');
      var tail := text[n..];
      if n == 0 || !AllDigits(tail) then 0
      else
        var g := ParseU32(tail);
        if g.None? then 0 else g.value
    }
  }

  function NewIncarnation(pane: PaneKey, n: U32): Incarnation {
    Incarnation(pane.text + ['@'] + Show(n))
  }

  function ParseIncarnation(s: string): Result<Incarnation> {
    var n := FindLast(s, '@');
    if n == 0 then Err(IncarnationShape(s))
    else
      var pane := ParsePane(s[..n - 1]);
      if pane.Err? then Err(pane.error)
      else if !Digits(s[n..]) then Err(Error.Generation(s[n..]))
      else
        var g := ParseU32(s[n..]);
        if g.None? then Err(Error.Generation(s[n..])) else Ok(NewIncarnation(pane.value, g.value))
  }

  /** What is composed of a pane and a number is read back as those two, and only those two compose it. */
  lemma IncarnationRoundTrip(p: PaneKey, n: U32, q: PaneKey, k: U32)
    requires IsPane(p) && IsPane(q)
    ensures var i := NewIncarnation(p, n);
      ParseIncarnation(i.text) == Ok(i) && i.Pane() == p && i.Generation() == n
    ensures NewIncarnation(p, n) == NewIncarnation(q, k) <==> p == q && n == k
  {
    Composed(p, n);
    Composed(q, k);
  }

  lemma Composed(p: PaneKey, n: U32)
    requires IsPane(p)
    ensures var i := NewIncarnation(p, n);
      ParseIncarnation(i.text) == Ok(i) && i.Pane() == p && i.Generation() == n
  {
    var digits := Show(n);
    PaneHasNoAt(p);
    ValueShow(n);
    ReadBack(p, digits);
    Halves(p, digits);
  }

  lemma Halves(p: PaneKey, digits: string)
    requires Digits(digits) && Value(digits) <= U32_MAX
    ensures var i := Incarnation(p.text + ['@'] + digits);
      i.Pane() == p && i.Generation() == Value(digits)
  {
    Cut(p.text, digits);
  }

  lemma Cut(head: string, digits: string)
    requires Digits(digits)
    ensures var s := head + ['@'] + digits;
      FindLast(s, '@') == |head| + 1 && s[..|head|] == head && s[|head| + 1..] == digits
  {
    FindLastAt(head, '@', digits);
  }

  lemma ReadBack(p: PaneKey, digits: string)
    requires ParsePane(p.text) == Ok(p) && Digits(digits) && Value(digits) <= U32_MAX
    ensures ParseIncarnation(p.text + ['@'] + digits) == Ok(NewIncarnation(p, Value(digits)))
  {
    Cut(p.text, digits);
  }

  /** Whether `s` is an incarnation's spelling: a pane, one `@`, and digits that fit. */
  ghost predicate Spells(s: string, p: PaneKey, digits: string) {
    IsPane(p) && Digits(digits) && Value(digits) <= U32_MAX && s == p.text + ['@'] + digits
  }

  /** What is accepted is exactly what is spelled so; and it is printed as it was but for the leading zeros. */
  lemma AcceptedExactly(s: string)
    ensures ParseIncarnation(s).Ok? <==> exists p, digits :: Spells(s, p, digits)
    ensures forall p, digits :: Spells(s, p, digits) ==>
      ParseIncarnation(s) == Ok(Incarnation(p.text + ['@'] + Dropped(digits)))
  {
    forall p, digits | Spells(s, p, digits)
      ensures ParseIncarnation(s) == Ok(Incarnation(p.text + ['@'] + Dropped(digits)))
    {
      Accepted(s, p, digits);
    }
    if ParseIncarnation(s).Ok? {
      var n := FindLast(s, '@');
      var pane := ParsePane(s[..n - 1]).value;
      PaneExactly([], [], s[..n - 1]);
      assert s == s[..n - 1] + ['@'] + s[n..];
      assert Spells(s, pane, s[n..]);
    }
  }

  lemma Accepted(s: string, p: PaneKey, digits: string)
    requires Spells(s, p, digits)
    ensures ParseIncarnation(s) == Ok(Incarnation(p.text + ['@'] + Dropped(digits)))
  {
    PaneHasNoAt(p);
    ReadBack(p, digits);
    ValueDropped(digits);
    ShowValue(Dropped(digits));
  }

  /** Why a string is no incarnation, in the order it is asked: no separator, no pane before it, no number after it. */
  lemma RefusedFor(s: string, head: string, tail: string)
    requires '@' !in tail
    ensures '@' !in s <==> ParseIncarnation(s) == Err(IncarnationShape(s))
    ensures var r := ParseIncarnation(head + ['@'] + tail);
      && (ParsePane(head).Err? ==> r == Err(ParsePane(head).error))
      && (ParsePane(head).Ok? && (!Digits(tail) || Value(tail) > 0xFFFF_FFFF) ==> r == Err(Error.Generation(tail)))
  {
    var n := FindLast(s, '@');
    if n == 0 {
      assert s[0..] == s;
    } else {
      assert s[n - 1] in s;
      NotShape(s);
    }
    var t := head + ['@'] + tail;
    FindLastAt(head, '@', tail);
    assert t[..|head|] == head && t[|head| + 1..] == tail;
  }

  /** Only a string without the separator is refused for having none. */
  lemma NotShape(s: string)
    requires FindLast(s, '@') > 0
    ensures ParseIncarnation(s) != Err(IncarnationShape(s))
  {
    var head := s[..FindLast(s, '@') - 1];
    if ParsePane(head).Err? {
      assert ParsePane(head).error.PaneKeyShape? || ParsePane(head).error.Segment?;
    }
  }

  /** Two of the separators, of either kind, are refused, whatever they separate. */
  lemma ExtraSeparators(a: string, b: string, c: string, d: char)
    requires d == '@' || d == ':'
    ensures ParseIncarnation(a + [d] + (b + [d] + c)).Err?
  {
    var s := a + [d] + (b + [d] + c);
    AcceptedExactly(s);
    if p, digits :| Spells(s, p, digits) {
      var tab, leaf :| NewPane(tab, leaf) == Ok(p);
      assert s == tab + [':'] + leaf + ['@'] + digits;
      var i, j := |a|, |a| + 1 + |b|;
      assert s[i] == d && s[j] == d && i < j;
      OnePlace(tab, leaf, digits, i);
      OnePlace(tab, leaf, digits, j);
    }
  }

  lemma OnePlace(tab: string, leaf: string, digits: string, i: nat)
    requires Plain(tab) && Plain(leaf) && Digits(digits)
    requires i < |tab| + 1 + |leaf| + 1 + |digits|
    ensures var s := tab + [':'] + leaf + ['@'] + digits;
      (s[i] == ':' <==> i == |tab|) && (s[i] == '@' <==> i == |tab| + 1 + |leaf|)
  {
    var s := tab + [':'] + leaf + ['@'] + digits;
    if i < |tab| {
      assert s[i] == tab[i] && tab[i] in tab;
    } else if |tab| < i < |tab| + 1 + |leaf| {
      assert s[i] == leaf[i - |tab| - 1] && leaf[i - |tab| - 1] in leaf;
    } else if i > |tab| + 1 + |leaf| {
      assert s[i] == digits[i - |tab| - |leaf| - 2];
    }
  }
}
