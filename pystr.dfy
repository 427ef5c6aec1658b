/** The few Python `str` operations the guard relies on: `split` with an explicit
    one-character separator, its inverse `join`, ASCII `lower`, and `in`. */
module PyStr {

  /** `sep.join(parts)` for a non-empty list of fields. */
  function Join(parts: seq<string>, sep: char): string
    requires |parts| >= 1
  {
    if |parts| == 1 then parts[0] else parts[0] + [sep] + Join(parts[1..], sep)
  }

  /** `s.split(sep)`: every occurrence of `sep` ends a field, so empty fields are
      kept and there is always at least one field. */
  function Split(s: string, sep: char): (parts: seq<string>)
    ensures |parts| >= 1
    ensures forall i :: 0 <= i < |parts| ==> sep !in parts[i]
    decreases |s|
  {
    if s == [] then [""]
    else if s[0] == sep then [""] + Split(s[1..], sep)
    else
      var rest := Split(s[1..], sep);
      [[s[0]] + rest[0]] + rest[1..]
  }

  /** Joining the fields of a split with its separator gives back the text. */
  lemma {:induction false} JoinSplit(s: string, sep: char)
    ensures Join(Split(s, sep), sep) == s
    decreases |s|
  {
    if s != [] {
      JoinSplit(s[1..], sep);
      if s[0] == sep {
        assert [""] + Split(s[1..], sep) == Split(s, sep);
        assert Split(s, sep)[1..] == Split(s[1..], sep);
      } else {
        JoinPrepend(s[0], Split(s[1..], sep), sep);
      }
    }
  }

  /** Prepending a character to the first field prepends it to the joined text. */
  lemma {:induction false} JoinPrepend(c: char, parts: seq<string>, sep: char)
    requires |parts| >= 1
    ensures Join([[c] + parts[0]] + parts[1..], sep) == [c] + Join(parts, sep)
  {
    var q := [[c] + parts[0]] + parts[1..];
    assert q[0] == [c] + parts[0];
    if |parts| > 1 {
      assert q[1..] == parts[1..];
    }
  }

  /** A text without the separator is a single field. */
  lemma {:induction false} SplitNoSeparator(s: string, sep: char)
    requires sep !in s
    ensures Split(s, sep) == [s]
    decreases |s|
  {
    if s != [] {
      assert s[0] != sep;
      assert sep !in s[1..];
      SplitNoSeparator(s[1..], sep);
      assert Split(s, sep) == [[s[0]] + s[1..]];
      assert [s[0]] + s[1..] == s;
    }
  }

  /** Split on a text that starts with the character `c`. */
  lemma SplitCons(c: char, t: string, sep: char)
    ensures Split([c] + t, sep) ==
      if c == sep then [""] + Split(t, sep)
      else [[c] + Split(t, sep)[0]] + Split(t, sep)[1..]
  {
    assert ([c] + t)[0] == c && ([c] + t)[1..] == t;
  }

  /** Splitting at a separator splits the two sides independently. */
  lemma {:induction false} SplitConcat(a: string, b: string, sep: char)
    ensures Split(a + [sep] + b, sep) == Split(a, sep) + Split(b, sep)
    decreases |a|, 1
  {
    if a == [] {
      assert a + [sep] + b == [sep] + b;
      SplitCons(sep, b, sep);
    } else {
      SplitConcatCons(a, b, sep);
    }
  }

  /** The inductive step of SplitConcat, for a non-empty left side. */
  lemma {:induction false} SplitConcatCons(a: string, b: string, sep: char)
    requires a != []
    ensures Split(a + [sep] + b, sep) == Split(a, sep) + Split(b, sep)
    decreases |a|, 0
  {
    var c, t := a[0], a[1..];
    assert a == [c] + t;
    assert a + [sep] + b == [c] + (t + [sep] + b);
    SplitConcat(t, b, sep);
    SplitConcatStep(c, t, b, sep);
  }

  /** Prepending `c` to the left side keeps the two sides split independently. */
  lemma SplitConcatStep(c: char, t: string, b: string, sep: char)
    requires Split(t + [sep] + b, sep) == Split(t, sep) + Split(b, sep)
    ensures Split([c] + (t + [sep] + b), sep) == Split([c] + t, sep) + Split(b, sep)
  {
    SplitCons(c, t + [sep] + b, sep);
    SplitCons(c, t, sep);
    if c == sep {
      SeqAssoc([""], Split(t, sep), Split(b, sep));
    } else {
      SplitConcatStepField(c, Split(t, sep), Split(b, sep));
    }
  }

  /** Concatenation of field lists is associative. */
  lemma SeqAssoc(x: seq<string>, y: seq<string>, z: seq<string>)
    ensures x + (y + z) == (x + y) + z
  {
  }

  /** Growing the first field of a field list commutes with appending fields. */
  lemma SplitConcatStepField(c: char, tail: seq<string>, right: seq<string>)
    requires |tail| >= 1
    ensures [[c] + (tail + right)[0]] + (tail + right)[1..] == ([[c] + tail[0]] + tail[1..]) + right
  {
    assert (tail + right)[0] == tail[0];
    assert (tail + right)[1..] == tail[1..] + right;
  }

  /** Split is the only way to cut `s` into separator-free fields that join back
      to `s`: it inverts Join. */
  lemma {:induction false} SplitJoin(parts: seq<string>, sep: char)
    requires |parts| >= 1
    requires forall i :: 0 <= i < |parts| ==> sep !in parts[i]
    ensures Split(Join(parts, sep), sep) == parts
    decreases |parts|
  {
    if |parts| == 1 {
      SplitNoSeparator(parts[0], sep);
    } else {
      SplitNoSeparator(parts[0], sep);
      SplitJoin(parts[1..], sep);
      SplitConcat(parts[0], Join(parts[1..], sep), sep);
      assert [parts[0]] + parts[1..] == parts;
    }
  }

  /** There is more than one field exactly when the separator occurs. */
  lemma SplitSingleField(s: string, sep: char)
    ensures |Split(s, sep)| == 1 <==> sep !in s
  {
    if sep !in s {
      SplitNoSeparator(s, sep);
    } else {
      JoinSplit(s, sep);
    }
  }

  /** ASCII `str.lower` on one character. */
  function LowerChar(c: char): char {
    if 'A' <= c <= 'Z' then (c as int + 32) as char else c
  }

  /** `s.lower()` on ASCII letters. */
  function Lower(s: string): (r: string)
    ensures |r| == |s|
    ensures forall i :: 0 <= i < |r| ==> !('A' <= r[i] <= 'Z')
    ensures forall i :: 0 <= i < |s| && !('A' <= s[i] <= 'Z') ==> r[i] == s[i]
  {
    seq(|s|, i requires 0 <= i < |s| => LowerChar(s[i]))
  }

  /** Lowering yields the lower-case letter `lo` exactly from `lo` and from its
      upper-case form. */
  lemma LowerCharIsLetter(c: char, lo: char)
    requires 'a' <= lo <= 'z'
    ensures LowerChar(c) == lo <==> c == lo || c == (lo as int - 32) as char
  {
  }

  /** `s.lower() == "bearer"` holds exactly for the 64 spellings of "bearer" in
      mixed case: the scheme comparison is case-insensitive and nothing more. */
  lemma LowerIsBearer(s: string)
    ensures Lower(s) == "bearer" <==>
      && |s| == 6
      && s[0] in "bB" && s[1] in "eE" && s[2] in "aA"
      && s[3] in "rR" && s[4] in "eE" && s[5] in "rR"
  {
    if |s| == 6 {
      LowerCharIsLetter(s[0], 'b');
      LowerCharIsLetter(s[1], 'e');
      LowerCharIsLetter(s[2], 'a');
      LowerCharIsLetter(s[3], 'r');
      LowerCharIsLetter(s[4], 'e');
      LowerCharIsLetter(s[5], 'r');
      var l := Lower(s);
      assert l == "bearer" <==>
        l[0] == 'b' && l[1] == 'e' && l[2] == 'a' && l[3] == 'r' && l[4] == 'e' && l[5] == 'r';
    }
  }

  /** `prefix` is a prefix of `s`. */
  predicate StartsWith(s: string, prefix: string) {
    |prefix| <= |s| && s[..|prefix|] == prefix
  }

  /** `needle in hay` for two strings: substring containment. */
  predicate Contains(hay: string, needle: string)
    ensures needle == [] ==> Contains(hay, needle)
    ensures Contains(hay, needle) ==> |needle| <= |hay|
    decreases |hay|
  {
    StartsWith(hay, needle) || (hay != [] && Contains(hay[1..], needle))
  }

  /** `needle` occurs in `hay` starting at offset `i`. */
  predicate OccursAt(hay: string, needle: string, i: int) {
    0 <= i && i + |needle| <= |hay| && hay[i..i + |needle|] == needle
  }

  /** Contains holds exactly when `needle` occurs at some offset of `hay`. */
  lemma {:induction false} ContainsAtOffset(hay: string, needle: string)
    ensures Contains(hay, needle) <==> exists i :: OccursAt(hay, needle, i)
    decreases |hay|
  {
    if StartsWith(hay, needle) {
      assert OccursAt(hay, needle, 0);
    }
    if hay != [] {
      ContainsAtOffset(hay[1..], needle);
      if Contains(hay[1..], needle) {
        var i :| OccursAt(hay[1..], needle, i);
        assert hay[1..][i..i + |needle|] == hay[i + 1..i + 1 + |needle|];
        assert OccursAt(hay, needle, i + 1);
      }
      if exists i :: OccursAt(hay, needle, i) {
        var i :| OccursAt(hay, needle, i);
        if i > 0 {
          assert hay[1..][i - 1..i - 1 + |needle|] == hay[i..i + |needle|];
          assert OccursAt(hay[1..], needle, i - 1);
        }
      }
    }
  }
}
