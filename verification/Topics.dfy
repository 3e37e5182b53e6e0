/** Topics as levels, and MQTT topic filters over them (section 4.7 of MQTT
    Version 5.0). */
module Topics {
  /** A string taken apart at every `/`; never empty. */
  function Split(s: string): (levels: seq<string>)
    ensures levels != [] && forall i :: 0 <= i < |levels| ==> '/' !in levels[i]
  {
    if s == "" then [""]
    else
      var rest := Split(s[1..]);
      if s[0] == '/' then [""] + rest else [[s[0]] + rest[0]] + rest[1..]
  }

  /** Levels put together with `/`; none make the empty string. */
  function Join(levels: seq<string>): string {
    if levels == [] then ""
    else if |levels| == 1 then levels[0]
    else levels[0] + "/" + Join(levels[1..])
  }

  /** A single level. */
  predicate Plain(s: string) { '/' !in s }

  lemma {:induction false} PlainSplit(s: string)
    requires Plain(s)
    ensures Split(s) == [s]
  {
    if s != "" {
      PlainSplit(s[1..]);
      assert [s[0]] + s[1..] == s;
    }
  }

  /** Splitting takes apart what a `/` puts together. */
  lemma {:induction false} SplitJoins(a: string, b: string)
    ensures Split(a + "/" + b) == Split(a) + Split(b)
  {
    if a == "" {
      assert (a + "/" + b)[1..] == b;
    } else {
      assert (a + "/" + b)[1..] == a[1..] + "/" + b;
      SplitJoins(a[1..], b);
    }
  }

  lemma {:induction false} JoinSplit(s: string)
    ensures Join(Split(s)) == s
  {
    if s != "" {
      JoinSplit(s[1..]);
      var rest := Split(s[1..]);
      if s[0] == '/' {
        assert ([""] + rest)[1..] == rest;
      } else {
        assert ([[s[0]] + rest[0]] + rest[1..])[1..] == rest[1..];
        assert [s[0]] + s[1..] == s;
      }
    }
  }

  lemma {:induction false} SplitJoin(levels: seq<string>)
    requires levels != [] && forall i :: 0 <= i < |levels| ==> Plain(levels[i])
    ensures Split(Join(levels)) == levels
  {
    PlainSplit(levels[0]);
    if |levels| > 1 {
      SplitJoin(levels[1..]);
      SplitJoins(levels[0], Join(levels[1..]));
    }
  }

  /** Whether a topic filter matches a topic: `+` stands for any one level,
      `#` for any number of further ones, none included. */
  predicate Matches(filter: seq<string>, topic: seq<string>) {
    if filter == [] then topic == []
    else if filter[0] == "#" then true
    else topic != [] && (filter[0] == "+" || filter[0] == topic[0]) && Matches(filter[1..], topic[1..])
  }

  /** Levels that are taken literally. */
  predicate Literal(levels: seq<string>) {
    forall i :: 0 <= i < |levels| ==> levels[i] != "+" && levels[i] != "#"
  }

  /** Literal levels match exactly themselves. */
  lemma {:induction false} LiteralMatches(levels: seq<string>, filter: seq<string>, topic: seq<string>)
    requires Literal(levels)
    ensures Matches(levels + filter, topic) <==> levels <= topic && Matches(filter, topic[|levels|..])
  {
    if levels == [] {
      assert levels + filter == filter && topic[0..] == topic;
    } else {
      assert (levels + filter)[1..] == levels[1..] + filter;
      if topic != [] {
        LiteralMatches(levels[1..], filter, topic[1..]);
        if topic[0] == levels[0] {
          assert levels <= topic <==> levels[1..] <= topic[1..] by {
            if levels[1..] <= topic[1..] {
              assert topic == [topic[0]] + topic[1..];
              assert levels == [levels[0]] + levels[1..];
            }
          }
          if levels <= topic { assert topic[1..][|levels| - 1..] == topic[|levels|..]; }
        }
      }
    }
  }

  /** So many `+` match exactly so many levels, whatever they are. */
  lemma {:induction false} PlusMatches(n: nat, topic: seq<string>)
    ensures Matches(seq(n, _ => "+"), topic) <==> |topic| == n
  {
    if n > 0 {
      assert seq(n, _ => "+")[1..] == seq(n - 1, _ => "+");
      if topic != [] { PlusMatches(n - 1, topic[1..]); }
    }
  }
}
