/** String assembly: joining parts with a separator, as the generator's
    `StringBuilder` loops do. */
module Text {

  /** The parts with `sep` between each two neighbours (no leading or
      trailing separator). */
  function JoinWith(sep: string, parts: seq<string>): string
  {
    if |parts| == 0 then ""
    else if |parts| == 1 then parts[0]
    else JoinWith(sep, parts[..|parts| - 1]) + (sep + parts[|parts| - 1])
  }

  /** Every part followed by `sep`, the last one included. */
  function Terminated(sep: string, parts: seq<string>): string
  {
    if |parts| == 0 then "" else Terminated(sep, parts[..|parts| - 1]) + (parts[|parts| - 1] + sep)
  }

  /** Text wrapped in double quotes, as a Java string literal is emitted. */
  function Quoted(s: string): string
  {
    "\"" + s + "\""
  }

  lemma {:induction false} JoinWithSnoc(sep: string, parts: seq<string>, last: string)
    requires |parts| > 0
    ensures JoinWith(sep, parts + [last]) == JoinWith(sep, parts) + (sep + last)
  {
    assert (parts + [last])[..|parts|] == parts;
  }

  lemma {:induction false} TerminatedSnoc(sep: string, parts: seq<string>, last: string)
    ensures Terminated(sep, parts + [last]) == Terminated(sep, parts) + (last + sep)
  {
    assert (parts + [last])[..|parts|] == parts;
  }

  /** Terminating every part and then writing one more part unterminated is
      the same as joining them all. */
  lemma {:induction false} TerminatedThenLast(sep: string, parts: seq<string>, last: string)
    ensures Terminated(sep, parts) + last == JoinWith(sep, parts + [last])
    decreases |parts|
  {
    if |parts| == 0 {
      assert parts + [last] == [last];
    } else {
      var init, p := parts[..|parts| - 1], parts[|parts| - 1];
      TerminatedThenLast(sep, init, p);
      assert init + [p] == parts;
      JoinWithSnoc(sep, parts, last);
    }
  }

  /** A join starts with its first part. */
  lemma {:induction false} JoinWithStartsWithFirst(sep: string, parts: seq<string>)
    requires |parts| > 0
    ensures parts[0] <= JoinWith(sep, parts)
    decreases |parts|
  {
    if |parts| > 1 {
      var init := parts[..|parts| - 1];
      JoinWithStartsWithFirst(sep, init);
      assert parts[0] == init[0];
    }
  }

  /** A non-empty list of terminated parts is its join plus one trailing separator. */
  lemma {:induction false} TerminatedIsJoinThenSep(sep: string, parts: seq<string>)
    requires |parts| > 0
    ensures Terminated(sep, parts) == JoinWith(sep, parts) + sep
  {
    var init, p := parts[..|parts| - 1], parts[|parts| - 1];
    TerminatedThenLast(sep, init, p);
    assert init + [p] == parts;
  }
}
