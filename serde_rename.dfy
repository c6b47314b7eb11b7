/**
 * The two `#[serde(rename_all = ...)]` rules the models use to name enum
 * variants on the wire: "lowercase" lower-cases the variant's identifier,
 * "snake_case" also puts an underscore before every upper-case letter but
 * the first. Variant identifiers are ASCII, so only ASCII letters change case.
 */
module SerdeRename {

  predicate IsAsciiUpper(c: char)
  {
    'A' <= c <= 'Z'
  }

  function AsciiLower(c: char): (d: char)
    ensures !IsAsciiUpper(d)
    ensures !IsAsciiUpper(c) ==> d == c
  {
    if IsAsciiUpper(c) then (c as int + 32) as char else c
  }

  /** `rename_all = "lowercase"`. */
  function Lowercase(s: string): (r: string)
    ensures |r| == |s|
    ensures forall i :: 0 <= i < |s| ==> r[i] == AsciiLower(s[i])
  {
    if s == [] then [] else [AsciiLower(s[0])] + Lowercase(s[1..])
  }

  /** `rename_all = "snake_case"`: the first character is only lower-cased. */
  function SnakeCase(s: string): (r: string)
    ensures |r| >= |s|
    ensures s != [] ==> r[0] == AsciiLower(s[0])
  {
    if s == [] then [] else [AsciiLower(s[0])] + SnakeTail(s[1..])
  }

  /** The characters after the first: each upper-case letter gets an underscore before it. */
  function SnakeTail(s: string): (r: string)
    ensures |r| >= |s|
  {
    if s == [] then []
    else (if IsAsciiUpper(s[0]) then "_" else "") + [AsciiLower(s[0])] + SnakeTail(s[1..])
  }

  /** Names without upper-case letters are left alike by both rules. */
  lemma {:induction false} NoUpperUnchanged(s: string)
    requires forall i :: 0 <= i < |s| ==> !IsAsciiUpper(s[i])
    ensures Lowercase(s) == s
    ensures SnakeTail(s) == s
  {
    if s != [] {
      NoUpperUnchanged(s[1..]);
    }
  }

  /** The rule works character by character, so it distributes over concatenation. */
  lemma {:induction false} SnakeTailAppend(a: string, b: string)
    ensures SnakeTail(a + b) == SnakeTail(a) + SnakeTail(b)
  {
    if a != [] {
      var head := (if IsAsciiUpper(a[0]) then "_" else "") + [AsciiLower(a[0])];
      assert (a + b)[0] == a[0];
      assert (a + b)[1..] == a[1..] + b;
      SnakeTailAppend(a[1..], b);
      calc {
        SnakeTail(a + b);
        head + SnakeTail(a[1..] + b);
        head + (SnakeTail(a[1..]) + SnakeTail(b));
        (head + SnakeTail(a[1..])) + SnakeTail(b);
      }
    } else {
      assert a + b == b;
    }
  }

  /**
   * The snake_case name of an identifier made of two capitalised words:
   * the words lower-cased and joined by an underscore.
   */
  lemma SnakeCaseOfTwoWords(u1: char, a: string, u2: char, b: string)
    requires IsAsciiUpper(u1) && IsAsciiUpper(u2)
    requires forall i :: 0 <= i < |a| ==> !IsAsciiUpper(a[i])
    requires forall i :: 0 <= i < |b| ==> !IsAsciiUpper(b[i])
    ensures SnakeCase([u1] + a + [u2] + b) == [AsciiLower(u1)] + a + "_" + [AsciiLower(u2)] + b
  {
    var s := [u1] + a + [u2] + b;
    assert s[1..] == a + ([u2] + b);
    NoUpperUnchanged(a);
    NoUpperUnchanged(b);
    SnakeTailAppend(a, [u2] + b);
    SnakeTailAppend([u2], b);
    assert SnakeTail([u2]) == "_" + [AsciiLower(u2)];
  }

  /** A snake-cased name never contains an upper-case letter. */
  lemma {:induction false} SnakeTailHasNoUpper(s: string)
    ensures forall i :: 0 <= i < |SnakeTail(s)| ==> !IsAsciiUpper(SnakeTail(s)[i])
  {
    if s != [] {
      SnakeTailHasNoUpper(s[1..]);
      var head := (if IsAsciiUpper(s[0]) then "_" else "") + [AsciiLower(s[0])];
      assert SnakeTail(s) == head + SnakeTail(s[1..]);
      forall i | 0 <= i < |SnakeTail(s)| ensures !IsAsciiUpper(SnakeTail(s)[i]) {
        if i >= |head| {
          assert SnakeTail(s)[i] == SnakeTail(s[1..])[i - |head|];
        }
      }
    }
  }
}
