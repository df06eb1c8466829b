/**
 * Splitting a text on a one-character separator, with the semantics of
 * Python's `str.split(sep)` for an explicit separator: adjacent separators
 * delimit empty fields, and the empty text has one empty field.
 */
module Fields {
  import opened Common

  function Split(s: string, sep: char): (fields: seq<string>)
    ensures |fields| >= 1
    ensures forall i :: 0 <= i < |fields| ==> sep !in fields[i]
    decreases |s|
  {
    if |s| == 0 then [""]
    else
      var rest := Split(s[1..], sep);
      if s[0] == sep then [""] + rest
      else [[s[0]] + rest[0]] + rest[1..]
  }

  /** Python's `sep.join(fields)`: the inverse of `Split`. */
  function Join(fields: seq<string>, sep: char): string
    requires |fields| >= 1
    decreases |fields|
  {
    if |fields| == 1 then fields[0] else fields[0] + [sep] + Join(fields[1..], sep)
  }

  /** `field` is the text of `s` before its first `sep`, or all of `s` when there is none. */
  predicate IsFirstField(s: string, sep: char, field: string) {
    && StartsWith(s, field)
    && sep !in field
    && (|field| == |s| || s[|field|] == sep)
  }

  /** The first field of a text is determined by the text. */
  lemma FirstFieldUnique(s: string, sep: char, a: string, b: string)
    requires IsFirstField(s, sep, a) && IsFirstField(s, sep, b)
    ensures a == b
  {
  }

  /** The first piece `Split` returns is the first field. */
  lemma {:induction false} SplitFirst(s: string, sep: char)
    ensures IsFirstField(s, sep, Split(s, sep)[0])
    decreases |s|
  {
    if |s| > 0 && s[0] != sep {
      var rest := Split(s[1..], sep);
      SplitFirst(s[1..], sep);
      var field := [s[0]] + rest[0];
      assert s[..|field|] == [s[0]] + s[1..][..|rest[0]|];
      if |field| < |s| {
        assert s[|field|] == s[1..][|rest[0]|];
      }
    }
  }

  /** A separator after a separator-free head ends the first field there. */
  lemma {:induction false} SplitAt(head: string, sep: char, tail: string)
    requires sep !in head
    ensures Split(head + [sep] + tail, sep) == [head] + Split(tail, sep)
    decreases |head|
  {
    var s := head + [sep] + tail;
    if |head| == 0 {
      assert s[1..] == tail;
    } else {
      assert s[1..] == head[1..] + [sep] + tail;
      SplitAt(head[1..], sep, tail);
      assert [s[0]] + head[1..] == head;
    }
  }

  /** A text without the separator is a single field. */
  lemma {:induction false} SplitWhole(s: string, sep: char)
    requires sep !in s
    ensures Split(s, sep) == [s]
    decreases |s|
  {
    if |s| > 0 {
      SplitWhole(s[1..], sep);
      assert [s[0]] + s[1..] == s;
    }
  }

  /** Joining the fields of a text gives the text back. */
  lemma {:induction false} JoinSplit(s: string, sep: char)
    ensures Join(Split(s, sep), sep) == s
    decreases |s|
  {
    if |s| > 0 {
      var rest := Split(s[1..], sep);
      JoinSplit(s[1..], sep);
      if s[0] == sep {
        assert ([""] + rest)[1..] == rest;
      } else if |rest| > 1 {
        var head := [s[0]] + rest[0];
        assert ([head] + rest[1..])[1..] == rest[1..];
        assert Join(rest, sep) == rest[0] + [sep] + Join(rest[1..], sep);
      }
      assert [s[0]] + s[1..] == s;
    }
  }

  /** Splitting joined separator-free fields gives the fields back. */
  lemma {:induction false} SplitJoin(fields: seq<string>, sep: char)
    requires |fields| >= 1
    requires forall i :: 0 <= i < |fields| ==> sep !in fields[i]
    ensures Split(Join(fields, sep), sep) == fields
    decreases |fields|
  {
    if |fields| == 1 {
      SplitWhole(fields[0], sep);
    } else {
      SplitJoin(fields[1..], sep);
      SplitAt(fields[0], sep, Join(fields[1..], sep));
      assert [fields[0]] + fields[1..] == fields;
    }
  }
}
