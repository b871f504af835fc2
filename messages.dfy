/** The `getMessage` text shared by `ValidationResult` and `Reasons`, and the
    `String.valueOf` renderings the helper builders put into messages. */
module Messages {

  /** `String.join(sep, parts)` */
  function Join(sep: string, parts: seq<string>): (s: string)
    ensures parts == [] ==> s == ""
    ensures |parts| == 1 ==> s == parts[0]
    decreases |parts|
  {
    if parts == [] then ""
    else if |parts| == 1 then parts[0]
    else parts[0] + sep + Join(sep, parts[1..])
  }

  /** Joining one more part puts the separator between the old text and the
      new part: `String.join` grows from the right as it does from the left. */
  lemma {:induction false} JoinSnoc(sep: string, parts: seq<string>, x: string)
    requires parts != []
    ensures Join(sep, parts + [x]) == Join(sep, parts) + sep + x
    decreases |parts|
  {
    var ps := parts + [x];
    assert ps[0] == parts[0];
    if |parts| == 1 {
      assert ps[1..] == [x];
    } else {
      assert ps[1..] == parts[1..] + [x];
      JoinSnoc(sep, parts[1..], x);
    }
  }

  /** One map entry: `  "field": "r1,r2"`. The source also passes the joined
      text through `String.join(", ", text)`, which with a single argument
      returns it unchanged, so reasons are separated by a bare comma. */
  function EntryLine(field: string, reasons: seq<string>): string {
    "  \"" + field + "\": \"" + Join(",", reasons) + "\""
  }

  /** The lines of a map, in the order the map iterates its keys. */
  function Lines(reasons: map<string, seq<string>>, order: seq<string>): (ls: seq<string>)
    requires forall i :: 0 <= i < |order| ==> order[i] in reasons
    ensures |ls| == |order|
    ensures forall i :: 0 <= i < |order| ==> ls[i] == EntryLine(order[i], reasons[order[i]])
    decreases |order|
  {
    if order == [] then []
    else [EntryLine(order[0], reasons[order[0]])] + Lines(reasons, order[1..])
  }

  /** The "no failure" text. */
  const NoFailures := "No failures detected."

  /** The iteration order of a map lists each of its keys exactly once. */
  lemma OrderListsKeys(reasons: map<string, seq<string>>, order: seq<string>)
    requires multiset(order) == multiset(reasons.Keys)
    ensures |order| == |reasons|
    ensures forall i :: 0 <= i < |order| ==> order[i] in reasons
  {
    assert |multiset(order)| == |order|;
    assert |multiset(reasons.Keys)| == |reasons.Keys|;
    forall i | 0 <= i < |order| ensures order[i] in reasons {
      assert order[i] in multiset(order);
    }
  }

  /** `getMessage()`. A `HashMap` iterates its keys in an order the model
      does not fix; `order` is that order, listing every key exactly once.
      The empty map gives the "no failure" text, and a map with one entry
      renders as that entry's line between braces. */
  function Render(reasons: map<string, seq<string>>, order: seq<string>): (s: string)
    requires multiset(order) == multiset(reasons.Keys)
    ensures |reasons| == 0 <==> s == NoFailures
    ensures |order| == 1 ==> order[0] in reasons && s == "{\n" + EntryLine(order[0], reasons[order[0]]) + "\n}"
  {
    OrderListsKeys(reasons, order);
    if |reasons| == 0 then NoFailures
    else
      var body := "{\n" + Join("\n", Lines(reasons, order)) + "\n}";
      assert body[0] == '{';
      body
  }

  /** A single-entry map renders as one quoted line inside braces, with its
      reasons joined by a comma. */
  lemma RenderSingle(field: string, reasons: seq<string>)
    ensures multiset([field]) == multiset(map[field := reasons].Keys)
    ensures Render(map[field := reasons], [field]) ==
              "{\n  \"" + field + "\": \"" + Join(",", reasons) + "\"\n}"
  {
    var m := map[field := reasons];
    assert m.Keys == {field};
    assert multiset([field]) == multiset(m.Keys);
    assert |m| == 1;
    var ls := Lines(m, [field]);
    assert ls == [EntryLine(field, reasons)];
    assert Join("\n", ls) == EntryLine(field, reasons);
    assert Render(m, [field]) == "{\n" + EntryLine(field, reasons) + "\n}";
  }

  /** Two reasons are separated by a comma and no space. */
  lemma JoinTwo(a: string, b: string)
    ensures Join(",", [a, b]) == a + "," + b
  {
    assert [a, b][1..] == [b];
  }

  /** The value of a string of decimal digits, most significant first: the
      reference against which the renderings below are read back. */
  function DecimalValue(s: string): int
    decreases |s|
  {
    if s == [] then 0
    else DecimalValue(s[..|s| - 1]) * 10 + (s[|s| - 1] as int - '0' as int)
  }

  /** A sign followed by digits, read back as an `int`. */
  function SignedValue(s: string): int {
    if s != [] && s[0] == '-' then -DecimalValue(s[1..]) else DecimalValue(s)
  }

  /** `Integer.toString` of a non-negative value: decimal digits with no
      leading zero. */
  function NatToString(n: nat): (s: string)
    ensures |s| > 0
    ensures forall i :: 0 <= i < |s| ==> '0' <= s[i] <= '9'
    ensures |s| > 1 || n > 0 ==> s[0] != '0'
    decreases n
  {
    var d := ['0' + (n % 10) as char];
    if n < 10 then d else NatToString(n / 10) + d
  }

  /** Reading the digits back gives the number. */
  lemma {:induction false} NatRoundTrip(n: nat)
    ensures DecimalValue(NatToString(n)) == n
    decreases n
  {
    var d := ['0' + (n % 10) as char];
    if n >= 10 {
      var p := NatToString(n / 10);
      NatRoundTrip(n / 10);
      assert (p + d)[..|p + d| - 1] == p;
    }
  }

  /** Different numbers render differently. */
  lemma NatToStringInjective(m: nat, n: nat)
    requires NatToString(m) == NatToString(n)
    ensures m == n
  {
    NatRoundTrip(m);
    NatRoundTrip(n);
  }

  /** `String.format("%s", i)` of an int: the digits of its magnitude, after
      a '-' exactly when it is negative. */
  function IntToString(i: int): (s: string)
    ensures |s| > 0
    ensures (s[0] == '-') <==> i < 0
    ensures i < 0 ==> s[1..] == NatToString(-i)
    ensures i >= 0 ==> s == NatToString(i)
  {
    if i < 0 then "-" + NatToString(-i) else NatToString(i)
  }

  /** Reading the text back gives the number, so no value renders as "-0"
      or with a leading zero. */
  lemma IntRoundTrip(i: int)
    ensures SignedValue(IntToString(i)) == i
    ensures IntToString(i) != "-0"
  {
    if i < 0 {
      NatRoundTrip(-i);
    } else {
      NatRoundTrip(i);
    }
  }

  /** `String.format("%s", b)` of a boolean. */
  function BoolToString(b: bool): (s: string)
    ensures b ==> s == "true"
    ensures !b ==> s == "false"
  {
    if b then "true" else "false"
  }
}
