/** Small shared vocabulary: optional values, the exceptions that can escape
    from a step of the widget, and the comma join used to display lists. */
module Util {

  datatype Option<T> = None | Some(value: T)

  /** The kinds of exception the publish widget distinguishes: a failed
      dictionary lookup (a stale or "do not publish" server name), the
      `requests` connection error, and any other exception. */
  datatype Exc = KeyError | ConnectionError | OtherError

  /** The result of a call that may raise. */
  datatype Result<T> = Ok(value: T) | Raised(exc: Exc)

  /** The result of a command (no value) that may raise. */
  datatype Outcome = Pass | Fail(exc: Exc)

  /** `sep.join(parts)` */
  function Join(sep: char, parts: seq<string>): (r: string)
    ensures |parts| == 1 ==> r == parts[0]
  {
    if |parts| == 0 then ""
    else if |parts| == 1 then parts[0]
    else parts[0] + [sep] + Join(sep, parts[1..])
  }

  /** `s.split(sep)`: the inverse of Join, used to state what Join keeps. */
  function Split(sep: char, s: string): (r: seq<string>)
    ensures |r| >= 1
  {
    if |s| == 0 then [""]
    else if s[0] == sep then [""] + Split(sep, s[1..])
    else
      var rest := Split(sep, s[1..]);
      [[s[0]] + rest[0]] + rest[1..]
  }

  /** Splitting a separator-free prefix glues it onto the first piece. */
  lemma {:induction false} SplitPrefix(sep: char, p: string, s: string)
    requires sep !in p
    ensures Split(sep, p + s) == [p + Split(sep, s)[0]] + Split(sep, s)[1..]
  {
    if |p| > 0 {
      SplitPrefix(sep, p[1..], s);
      assert (p + s)[1..] == p[1..] + s;
      assert [p[0]] + (p[1..] + Split(sep, s)[0]) == p + Split(sep, s)[0];
    } else {
      var r := Split(sep, s);
      assert p + s == s && p + r[0] == r[0];
      assert [r[0]] + r[1..] == r;
    }
  }

  /** Joining then splitting gives back the parts, provided there is at least
      one part and no part contains the separator. */
  lemma {:induction false} SplitJoin(sep: char, parts: seq<string>)
    requires |parts| >= 1
    requires forall i :: 0 <= i < |parts| ==> sep !in parts[i]
    ensures Split(sep, Join(sep, parts)) == parts
  {
    if |parts| == 1 {
      SplitPrefix(sep, parts[0], "");
      assert parts[0] + "" == parts[0];
    } else {
      var tail := Join(sep, parts[1..]);
      SplitJoin(sep, parts[1..]);
      SplitPrefix(sep, parts[0], [sep] + tail);
      assert parts[0] + [sep] + tail == parts[0] + ([sep] + tail);
      assert ([sep] + tail)[1..] == tail;
      assert Split(sep, [sep] + tail) == [""] + parts[1..];
      assert parts[0] + "" == parts[0];
      assert parts == [parts[0]] + parts[1..];
    }
  }
}
