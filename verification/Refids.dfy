/** Comma-separated certificate lists as they travel in a CRL update: printed by the
    connector (na_sso/connectors/opnsense.py), parsed by the firewall
    (na_sso/mock_targets/app.py). */
module Refids {
  import opened Prelude

  /** The characters `str.strip` removes. */
  predicate IsSpace(c: char) {
    var n := c as int;
    || 0x09 <= n <= 0x0d || 0x1c <= n <= 0x20 || n == 0x85 || n == 0xa0 || n == 0x1680
    || 0x2000 <= n <= 0x200a || n == 0x2028 || n == 0x2029 || n == 0x202f || n == 0x205f || n == 0x3000
  }

  function StripLeft(s: string): string {
    if s != [] && IsSpace(s[0]) then StripLeft(s[1..]) else s
  }

  function StripRight(s: string): string {
    if s != [] && IsSpace(Last(s)) then StripRight(Front(s)) else s
  }

  function Strip(s: string): string {
    StripRight(StripLeft(s))
  }

  function Split(s: string): (parts: seq<string>)
    ensures parts != []
  {
    if s == [] then [[]]
    else
      var rest := Split(s[1..]);
      if s[0] == ',' then [[]] + rest else [[s[0]] + rest[0]] + rest[1..]
  }

  function Join(items: seq<string>): string {
    if items == [] then [] else if |items| == 1 then items[0] else items[0] + "," + Join(items[1..])
  }

  function ParseRefids(text: string): set<string> {
    set item | item in Split(text) && Strip(item) != [] :: Strip(item)
  }

  /** Refids that survive the trip: nonempty, trimmed, without a comma. */
  predicate Clean(refid: string) {
    refid != [] && ',' !in refid && Strip(refid) == refid
  }

  lemma {:induction false} SplitPlain(s: string)
    requires ',' !in s
    ensures Split(s) == [s]
  {
    if s != [] {
      SplitPlain(s[1..]);
      assert s[0] in s && [s[0]] + s[1..] == s;
    }
  }

  lemma {:induction false} SplitFirst(head: string, tail: string)
    requires ',' !in head
    ensures Split(head + "," + tail) == [head] + Split(tail)
  {
    var text := head + "," + tail;
    if head == [] {
      assert text[0] == ',' && text[1..] == tail;
    } else {
      SplitFirst(head[1..], tail);
      assert text[1..] == head[1..] + "," + tail;
      assert head[0] in head && [head[0]] + head[1..] == head;
      assert Split(text[1..])[1..] == Split(tail);
    }
  }

  lemma {:induction false} SplitJoin(items: seq<string>)
    requires items != [] && forall x | x in items :: ',' !in x
    ensures Split(Join(items)) == items
  {
    if |items| == 1 {
      SplitPlain(items[0]);
    } else {
      SplitJoin(items[1..]);
      SplitFirst(items[0], Join(items[1..]));
    }
  }

  lemma {:induction false} SplitHasNoCommas(s: string)
    ensures forall part | part in Split(s) :: ',' !in part
  {
    if s != [] {
      SplitHasNoCommas(s[1..]);
      var rest := Split(s[1..]);
      assert rest[0] in rest && forall part | part in rest[1..] :: part in rest;
    }
  }

  lemma {:induction false} StripLeftFacts(s: string)
    ensures var t := StripLeft(s); (t == [] || !IsSpace(t[0])) && forall c | c in t :: c in s
  {
    if s != [] && IsSpace(s[0]) {
      StripLeftFacts(s[1..]);
    }
  }

  lemma {:induction false} StripRightFacts(s: string)
    ensures
      var t := StripRight(s);
      && (t == [] || !IsSpace(Last(t))) && t <= s && (forall c | c in t :: c in s)
  {
    if s != [] && IsSpace(Last(s)) {
      StripRightFacts(Front(s));
    }
  }

  /** Whatever is parsed is clean unless it is empty. */
  lemma StrippedPartIsClean(part: string)
    requires ',' !in part && Strip(part) != []
    ensures Clean(Strip(part))
  {
    StripLeftFacts(part);
    StripRightFacts(StripLeft(part));
  }

  lemma ParsedIsClean(text: string)
    ensures forall refid | refid in ParseRefids(text) :: Clean(refid)
  {
    SplitHasNoCommas(text);
    forall refid | refid in ParseRefids(text)
      ensures Clean(refid)
    {
      var part :| part in Split(text) && Strip(part) != [] && Strip(part) == refid;
      StrippedPartIsClean(part);
    }
  }

  /** Printing a list and parsing it gives the same refids back, in whatever order they were
      printed, if and only if every one of them is clean. */
  lemma {:induction false} PrintParseRoundTrip(items: seq<string>)
    ensures ParseRefids(Join(items)) == (set x | x in items) <==> forall x | x in items :: Clean(x)
  {
    if forall x | x in items :: Clean(x) {
      if items == [] {
        assert ParseRefids(Join(items)) == {};
      } else {
        SplitJoin(items);
        assert ParseRefids(Join(items)) == (set x | x in items);
      }
    } else {
      var x :| x in items && !Clean(x);
      ParsedIsClean(Join(items));
      assert x !in ParseRefids(Join(items)) && x in (set y | y in items);
    }
  }

  /** Some order of the elements; the connector sorts, the parser does not care. */
  method Enumerate(refids: set<string>) returns (items: seq<string>)
    ensures (set x | x in items) == refids
    ensures forall i, j | 0 <= i < j < |items| :: items[i] != items[j]
  {
    items := [];
    var todo := refids;
    while todo != {}
      invariant todo <= refids
      invariant forall x :: x in items <==> x in refids && x !in todo
      invariant forall i, j | 0 <= i < j < |items| :: items[i] != items[j]
      decreases todo
    {
      var x :| x in todo;
      todo := todo - {x};
      items := items + [x];
    }
  }
}
