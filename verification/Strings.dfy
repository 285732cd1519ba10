/** `str.join` and `str.split`, as paths, records and snippets use them. */
module Strings {

  /** `separator.join(parts)` */
  function Join(parts: seq<string>, separator: string): string {
    if |parts| == 0 then ""
    else if |parts| == 1 then parts[0]
    else parts[0] + separator + Join(parts[1..], separator)
  }

  lemma {:induction false} JoinSnoc(parts: seq<string>, last: string, separator: string)
    ensures Join(parts + [last], separator)
         == if parts == [] then last else Join(parts, separator) + separator + last
  {
    if |parts| <= 1 {
      assert parts == [] ==> parts + [last] == [last];
      assert |parts| == 1 ==> (parts + [last])[1..] == [last];
    } else {
      JoinSnoc(parts[1..], last, separator);
      assert (parts + [last])[1..] == parts[1..] + [last];
    }
  }

  /** `text.split(separator)`: always at least one part. */
  function Split(text: string, separator: char): (parts: seq<string>)
    ensures |parts| >= 1
    ensures forall i | 0 <= i < |parts| :: separator !in parts[i]
    ensures Join(parts, [separator]) == text
  {
    if text == "" then [""]
    else if text[0] == separator then [""] + Split(text[1..], separator)
    else
      var rest := Split(text[1..], separator);
      [[text[0]] + rest[0]] + rest[1..]
  }

  /** Splitting a join of separator-free parts gives the parts back. */
  lemma {:induction false} SplitJoin(parts: seq<string>, separator: char)
    requires |parts| >= 1
    requires forall i | 0 <= i < |parts| :: separator !in parts[i]
    ensures Split(Join(parts, [separator]), separator) == parts
    decreases |parts|, |parts[0]|
  {
    var text := Join(parts, [separator]);
    if parts[0] == "" {
      if |parts| > 1 {
        assert text[1..] == Join(parts[1..], [separator]);
        SplitJoin(parts[1..], separator);
      }
    } else {
      var shorter := [parts[0][1..]] + parts[1..];
      assert shorter[1..] == parts[1..];
      assert text[1..] == Join(shorter, [separator]);
      assert text[0] == parts[0][0] && parts[0][0] in parts[0];
      forall i | 0 <= i < |shorter| ensures separator !in shorter[i] {
        if i > 0 {
          assert shorter[i] == parts[i];
        }
      }
      SplitJoin(shorter, separator);
      assert [text[0]] + shorter[0] == parts[0];
      assert [parts[0]] + parts[1..] == parts;
    }
  }
}
