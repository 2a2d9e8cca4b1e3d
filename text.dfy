/** String operations the accumulator borrows from Ruby's String class,
    written out over `seq<char>`. */
module Text {

  /** `p` occurs at the start of `s`. */
  predicate IsPrefix(p: string, s: string)
  {
    |p| <= |s| && s[..|p|] == p
  }

  /** Ruby's `s.include?(sub)`; also how `String#match?` behaves when its
      argument is a string with no regular-expression metacharacters. */
  predicate Contains(s: string, sub: string)
    decreases |s|
  {
    IsPrefix(sub, s) || (s != [] && Contains(s[1..], sub))
  }

  /** A string ending in `sub` contains it: after `s.concat(sub)` the
      receiver matches `sub`. */
  lemma {:induction false} ContainsSuffix(s: string, sub: string)
    ensures Contains(s + sub, sub)
    decreases |s|
  {
    if s != [] {
      assert (s + sub)[1..] == s[1..] + sub;
      ContainsSuffix(s[1..], sub);
    } else {
      assert (s + sub)[..|sub|] == sub;
    }
  }

  /** Ruby's `s.gsub(pat, rep)` with a String pattern: every non-overlapping
      occurrence of `pat`, scanning left to right, is replaced by `rep`.  An
      empty pattern matches before every character and at the end. */
  function ReplaceAll(s: string, pat: string, rep: string): string
    decreases |s|
  {
    if pat == [] then InsertAround(s, rep)
    else if s == [] then []
    else if IsPrefix(pat, s) then rep + ReplaceAll(s[|pat|..], pat, rep)
    else [s[0]] + ReplaceAll(s[1..], pat, rep)
  }

  /** `s.gsub('', rep)`: `rep` before each character and once more at the end. */
  function InsertAround(s: string, rep: string): (r: string)
    ensures |r| == |s| + (|s| + 1) * |rep|
  {
    if s == [] then rep else rep + [s[0]] + InsertAround(s[1..], rep)
  }

  /** Replacing an empty pattern by the empty string changes nothing: this is
      what `gsub('', '')` and `gsub(Regexp.new(''), '')` do. */
  lemma {:induction false} ReplaceEmptyByEmpty(s: string)
    ensures ReplaceAll(s, "", "") == s
  {
    if s != [] {
      ReplaceEmptyByEmpty(s[1..]);
    }
  }

  /** A non-empty pattern that does not occur leaves the string unchanged. */
  lemma {:induction false} ReplaceAbsent(s: string, pat: string, rep: string)
    requires pat != [] && !Contains(s, pat)
    ensures ReplaceAll(s, pat, rep) == s
  {
    if s != [] {
      ReplaceAbsent(s[1..], pat, rep);
    }
  }

  /** Replacing a non-empty pattern by nothing never makes a string longer. */
  lemma {:induction false} RemoveAllShrinks(s: string, pat: string)
    requires pat != []
    ensures |ReplaceAll(s, pat, "")| <= |s|
  {
    if s != [] {
      if IsPrefix(pat, s) {
        RemoveAllShrinks(s[|pat|..], pat);
      } else {
        RemoveAllShrinks(s[1..], pat);
      }
    }
  }

  /** Ruby's `s.split(c)` for a one-character separator, before Ruby drops the
      trailing empty fields: every field, in order. */
  function Fields(s: string, c: char): (r: seq<string>)
    ensures |r| >= 1
  {
    if s == [] then [""]
    else
      var f := Fields(s[..|s| - 1], c);
      if s[|s| - 1] == c then f + [""]
      else f[..|f| - 1] + [f[|f| - 1] + [s[|s| - 1]]]
  }

  /** Removes the empty strings at the end of a field list. */
  function DropTrailingEmpty(fs: seq<string>): seq<string>
  {
    if fs != [] && fs[|fs| - 1] == "" then DropTrailingEmpty(fs[..|fs| - 1]) else fs
  }

  /** Ruby's `s.split(c)`: the fields between separators, trailing empty
      fields dropped (so `"".split('_') == []` and `"a_".split('_') == ["a"]). */
  function RubySplit(s: string, c: char): seq<string>
  {
    DropTrailingEmpty(Fields(s, c))
  }

  /** Ruby's `parts.join(sep)`. */
  function Join(parts: seq<string>, sep: char): string
  {
    if parts == [] then []
    else if |parts| == 1 then parts[0]
    else Join(parts[..|parts| - 1], sep) + [sep] + parts[|parts| - 1]
  }

  /** `s` with every `c` replaced by `d`. */
  function Swap(s: string, c: char, d: char): (r: string)
    ensures |r| == |s|
    ensures forall i :: 0 <= i < |s| ==> r[i] == if s[i] == c then d else s[i]
  {
    if s == [] then [] else Swap(s[..|s| - 1], c, d) + [if s[|s| - 1] == c then d else s[|s| - 1]]
  }

  /** `s` without the run of `c` at its end. */
  function StripTrailing(s: string, c: char): string
  {
    if s != [] && s[|s| - 1] == c then StripTrailing(s[..|s| - 1], c) else s
  }

  lemma {:induction false} JoinExtendLast(parts: seq<string>, x: char, sep: char)
    requires parts != []
    ensures Join(parts[..|parts| - 1] + [parts[|parts| - 1] + [x]], sep) == Join(parts, sep) + [x]
  {
    var n := |parts|;
    var q := parts[..n - 1] + [parts[n - 1] + [x]];
    if n > 1 {
      assert q[..n - 1] == parts[..n - 1];
    }
  }

  /** Joining the fields back with `d` is the same as swapping each separator for `d`. */
  lemma {:induction false} JoinFields(s: string, c: char, d: char)
    ensures Join(Fields(s, c), d) == Swap(s, c, d)
  {
    if s != [] {
      var init := s[..|s| - 1];
      JoinFields(init, c, d);
      var f := Fields(init, c);
      if s[|s| - 1] == c {
        assert (f + [""])[..|f|] == f;
      } else {
        JoinExtendLast(f, s[|s| - 1], d);
      }
    }
  }

  /** Dropping the trailing empty fields is the same as splitting the string
      with its trailing separators stripped. */
  lemma {:induction false} DropTrailingFields(s: string, c: char)
    ensures RubySplit(s, c) == if StripTrailing(s, c) == [] then [] else Fields(StripTrailing(s, c), c)
  {
    if s != [] {
      var init := s[..|s| - 1];
      DropTrailingFields(init, c);
      var f := Fields(init, c);
      if s[|s| - 1] == c {
        assert (f + [""])[..|f|] == f;
        assert DropTrailingEmpty(f + [""]) == DropTrailingEmpty(f);
        assert StripTrailing(s, c) == StripTrailing(init, c);
      } else {
        var fs := Fields(s, c);
        assert fs[|fs| - 1] == f[|f| - 1] + [s[|s| - 1]];
        assert DropTrailingEmpty(fs) == fs;
        assert StripTrailing(s, c) == s;
      }
    } else {
      assert DropTrailingEmpty([""]) == DropTrailingEmpty([]);
    }
  }

  /** Ruby's `s.split('_').join('.')` is the string with its trailing
      underscores removed and every other underscore turned into a dot. */
  lemma SplitJoinIsSwap(s: string)
    ensures Join(RubySplit(s, '_'), '.') == Swap(StripTrailing(s, '_'), '_', '.')
  {
    DropTrailingFields(s, '_');
    JoinFields(StripTrailing(s, '_'), '_', '.');
  }

  /** ASCII `upcase`. */
  function Upcase(s: string): (r: string)
    ensures |r| == |s|
    ensures forall i :: 0 <= i < |s| ==> r[i] == UpcaseChar(s[i])
  {
    if s == [] then [] else [UpcaseChar(s[0])] + Upcase(s[1..])
  }

  function UpcaseChar(ch: char): char
  {
    if 'a' <= ch <= 'z' then (ch as int - 32) as char else ch
  }

  /** Ruby's `Integer#to_s`: optional minus sign, then decimal digits. */
  function DecimalString(n: int): (r: string)
    ensures r != []
  {
    if n < 0 then "-" + Digits(-n) else Digits(n)
  }

  function Digits(n: nat): (r: string)
    ensures r != []
    ensures forall i :: 0 <= i < |r| ==> '0' <= r[i] <= '9'
  {
    if n < 10 then [DigitChar(n)] else Digits(n / 10) + [DigitChar(n % 10)]
  }

  function DigitChar(d: nat): char
    requires d < 10
  {
    "0123456789"[d]
  }
}
