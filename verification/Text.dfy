/** The string helpers the daemon relies on, over sequences of runes. */
module Text {
  /** White space as `unicode.IsSpace` defines it. */
  predicate IsSpace(c: char) {
    || c in "\t\n\U{B}\U{C}\r \U{85}\U{A0}\U{1680}\U{2028}\U{2029}\U{202F}\U{205F}\U{3000}"
    || '\U{2000}' <= c <= '\U{200A}'
  }

  function TrimLeft(s: string): string {
    if s != "" && IsSpace(s[0]) then TrimLeft(s[1..]) else s
  }

  function TrimRight(s: string): string {
    if s != "" && IsSpace(s[|s| - 1]) then TrimRight(s[..|s| - 1]) else s
  }

  function TrimSpace(s: string): string {
    TrimRight(TrimLeft(s))
  }

  /** `strings.Split` for a one-rune separator: always at least one field. */
  function Split(s: string, sep: char): (fields: seq<string>)
    ensures |fields| >= 1
  {
    if s == "" then [""]
    else
      var rest := Split(s[1..], sep);
      if s[0] == sep then [""] + rest else [[s[0]] + rest[0]] + rest[1..]
  }

  function Join(fields: seq<string>, sep: char): string
    requires |fields| >= 1
  {
    if |fields| == 1 then fields[0] else fields[0] + [sep] + Join(fields[1..], sep)
  }

  /** Splitting loses nothing: the fields joined again are the input, and no field holds the separator. */
  lemma {:induction false} SplitJoin(s: string, sep: char)
    ensures Join(Split(s, sep), sep) == s
    ensures forall f :: f in Split(s, sep) ==> sep !in f
  {
    if s != "" {
      SplitJoin(s[1..], sep);
      var rest := Split(s[1..], sep);
      assert s == [s[0]] + s[1..];
      if s[0] == sep {
        assert ([""] + rest)[1..] == rest;
      } else {
        var all := [[s[0]] + rest[0]] + rest[1..];
        assert Split(s, sep) == all;
        assert forall f :: f in rest[1..] ==> f in rest;
        assert sep !in rest[0];
        if |rest| > 1 { assert all[1..] == rest[1..]; }
      }
    }
  }

  /** Joining fields that do not hold the separator and splitting again gives the fields back. */
  lemma {:induction false} JoinSplit(fields: seq<string>, sep: char)
    requires |fields| >= 1 && forall f :: f in fields ==> sep !in f
    ensures Split(Join(fields, sep), sep) == fields
  {
    assert fields == [fields[0]] + fields[1..];
    assert fields[0] in fields;
    if |fields| == 1 {
      SplitField(fields[0], sep);
    } else {
      JoinSplit(fields[1..], sep);
      SplitFirst(fields[0], Join(fields[1..], sep), sep);
      assert fields[0] + [sep] + Join(fields[1..], sep) == fields[0] + ([sep] + Join(fields[1..], sep));
    }
  }

  lemma {:induction false} SplitField(f: string, sep: char)
    requires sep !in f
    ensures Split(f, sep) == [f]
  {
    if f != "" {
      SplitField(f[1..], sep);
      assert [f[0]] + f[1..] == f;
    }
  }

  lemma {:induction false} SplitFirst(f: string, rest: string, sep: char)
    requires sep !in f
    ensures Split(f + ([sep] + rest), sep) == [f] + Split(rest, sep)
  {
    var s := f + ([sep] + rest);
    if f == "" {
      assert s[1..] == rest;
    } else {
      assert s[1..] == f[1..] + ([sep] + rest);
      SplitFirst(f[1..], rest, sep);
      assert [f[0]] + f[1..] == f;
    }
  }

  // ---- Trimming before or after splitting -------------------------------------------------

  lemma {:induction false} TrimAfterSpace(x: string, c: char)
    requires IsSpace(c)
    ensures TrimSpace(x + [c]) == TrimSpace(x) && TrimSpace([c] + x) == TrimSpace(x)
  {
    assert ([c] + x)[1..] == x;
    TrimLeftSnoc(x, c);
    var t := TrimLeft(x);
    assert (t + [c])[..|t|] == t;
  }

  lemma {:induction false} TrimLeftSnoc(x: string, c: char)
    requires IsSpace(c)
    ensures TrimLeft(x + [c]) == if TrimLeft(x) == "" then "" else TrimLeft(x) + [c]
  {
    if x == "" {
      assert x + [c] == [c] && [c][1..] == "";
    } else {
      assert (x + [c])[1..] == x[1..] + [c];
      if IsSpace(x[0]) {
        TrimLeftSnoc(x[1..], c);
      }
    }
  }

  /** The same fields, but for white space around them. */
  predicate SameTrimmed(a: seq<string>, b: seq<string>) {
    |a| == |b| && forall k :: 0 <= k < |a| ==> TrimSpace(a[k]) == TrimSpace(b[k])
  }

  lemma {:induction false} SplitTrimLeft(s: string, sep: char)
    requires !IsSpace(sep)
    ensures SameTrimmed(Split(TrimLeft(s), sep), Split(s, sep))
  {
    hide TrimSpace, IsSpace;
    if s != "" && IsSpace(s[0]) {
      SplitTrimLeft(s[1..], sep);
      var rest := Split(s[1..], sep);
      TrimAfterSpace(rest[0], s[0]);
      var all := [[s[0]] + rest[0]] + rest[1..];
      assert Split(s, sep) == all;
      assert forall k :: 0 < k < |all| ==> all[k] == rest[k];
    }
  }

  /** The fields with one more rune at the end of the last. */
  function Longer(fields: seq<string>, c: char): seq<string>
    requires fields != []
  {
    fields[..|fields| - 1] + [fields[|fields| - 1] + [c]]
  }

  lemma LongerTail(first: string, rest: seq<string>, c: char)
    requires rest != []
    ensures Longer([first] + rest, c) == [first] + Longer(rest, c)
  {
  }

  lemma {:induction false} SplitSnoc(s: string, c: char, sep: char)
    requires c != sep
    ensures Split(s + [c], sep) == Longer(Split(s, sep), c)
  {
    hide Longer;
    if s == "" {
      assert s + [c] == [c] && [c][1..] == "";
      LongerOne("", c);
      assert "" + [c] == [c] == [c] + "";
      SplitField([c], sep);
    } else {
      assert (s + [c])[1..] == s[1..] + [c];
      SplitSnoc(s[1..], c, sep);
      var rest := Split(s[1..], sep);
      if s[0] == sep {
        LongerTail("", rest, c);
      } else if |rest| == 1 {
        LongerOne(rest[0], c);
        LongerOne([s[0]] + rest[0], c);
        assert rest == [rest[0]] && Split(s, sep) == [[s[0]] + rest[0]];
        assert Split(s + [c], sep) == [[s[0]] + (rest[0] + [c])];
        assert [s[0]] + (rest[0] + [c]) == [s[0]] + rest[0] + [c];
      } else {
        assert rest == [rest[0]] + rest[1..];
        LongerTail(rest[0], rest[1..], c);
        LongerTail([s[0]] + rest[0], rest[1..], c);
      }
    }
  }

  lemma LongerOne(field: string, c: char)
    ensures Longer([field], c) == [field + [c]]
  {
  }

  lemma {:induction false} SplitTrimRight(s: string, sep: char)
    requires !IsSpace(sep)
    ensures SameTrimmed(Split(TrimRight(s), sep), Split(s, sep))
  {
    hide TrimSpace, IsSpace, Longer;
    if s != "" && IsSpace(s[|s| - 1]) {
      var init, c := s[..|s| - 1], s[|s| - 1];
      SplitTrimRight(init, sep);
      SplitSnoc(init, c, sep);
      assert init + [c] == s;
      LongerTrims(Split(init, sep), c);
    }
  }

  lemma LongerTrims(fields: seq<string>, c: char)
    requires fields != [] && IsSpace(c)
    ensures SameTrimmed(Longer(fields, c), fields)
  {
    hide TrimSpace, IsSpace;
    TrimAfterSpace(fields[|fields| - 1], c);
  }

  /** White space around the whole text is white space around its fields. */
  lemma SplitTrimmed(s: string, sep: char)
    requires !IsSpace(sep)
    ensures SameTrimmed(Split(TrimSpace(s), sep), Split(s, sep))
  {
    SplitTrimLeft(s, sep);
    SplitTrimRight(TrimLeft(s), sep);
    var once, twice := Split(TrimLeft(s), sep), Split(TrimSpace(s), sep);
    assert TrimSpace(s) == TrimRight(TrimLeft(s));
    assert |twice| == |once| == |Split(s, sep)|;
  }

  /** Case folding, ASCII letters only: device file names and GUIDs. */
  function UpperChar(c: char): char {
    if 'a' <= c <= 'z' then (c as int - 32) as char else c
  }

  function Upper(s: string): (u: string)
    ensures |u| == |s|
    ensures forall i :: 0 <= i < |s| ==> u[i] == UpperChar(s[i])
  {
    if s == "" then "" else [UpperChar(s[0])] + Upper(s[1..])
  }

  /** `strings.EqualFold`. */
  predicate EqualFold(a: string, b: string) {
    Upper(a) == Upper(b)
  }

  /** The same letter, but for case. */
  predicate SameLetter(c: char, d: char) {
    || c == d
    || (97 <= c as int <= 122 && d as int == c as int - 32)
    || (97 <= d as int <= 122 && c as int == d as int - 32)
  }

  /** Two texts fold to the same when they have the same letters, but for case. */
  lemma FoldsLetters(a: string, b: string)
    ensures EqualFold(a, b) <==> |a| == |b| && forall i :: 0 <= i < |a| ==> SameLetter(a[i], b[i])
  {
    hide Upper;
    var u, v := Upper(a), Upper(b);
    if |a| == |b| && forall i :: 0 <= i < |a| ==> SameLetter(a[i], b[i]) {
      assert forall i :: 0 <= i < |a| ==> u[i] == v[i];
      assert u == v;
    }
    if u == v {
      forall i | 0 <= i < |a|
        ensures SameLetter(a[i], b[i])
      {
        assert u[i] == v[i];
      }
    }
  }

  ghost predicate AllSpace(s: string) {
    forall i :: 0 <= i < |s| ==> IsSpace(s[i])
  }

  lemma {:induction false} TrimLeftIs(s: string) returns (lead: string)
    ensures AllSpace(lead) && s == lead + TrimLeft(s)
    ensures TrimLeft(s) != "" ==> !IsSpace(TrimLeft(s)[0])
  {
    hide IsSpace;
    lead := "";
    if s != "" && IsSpace(s[0]) {
      var rest := TrimLeftIs(s[1..]);
      lead := [s[0]] + rest;
    }
  }

  lemma {:induction false} TrimRightIs(s: string) returns (trail: string)
    ensures AllSpace(trail) && s == TrimRight(s) + trail
    ensures TrimRight(s) != "" ==> !IsSpace(TrimRight(s)[|TrimRight(s)| - 1])
  {
    hide IsSpace;
    trail := "";
    if s != "" && IsSpace(s[|s| - 1]) {
      var init, last := s[..|s| - 1], s[|s| - 1];
      var rest := TrimRightIs(init);
      trail := rest + [last];
      assert s == init + [last] == TrimRight(init) + rest + [last];
    }
  }

  /** Trimming takes away white space at both ends and nothing else, and leaves none there. */
  lemma TrimSpaceIs(s: string)
    ensures var t := TrimSpace(s);
            && (exists lead, trail :: AllSpace(lead) && AllSpace(trail) && s == lead + t + trail)
            && (t != "" ==> !IsSpace(t[0]) && !IsSpace(t[|t| - 1]))
  {
    hide IsSpace;
    var lead := TrimLeftIs(s);
    var trail := TrimRightIs(TrimLeft(s));
    var t := TrimSpace(s);
    assert s == lead + t + trail;
    if t != "" {
      assert t[0] == TrimLeft(s)[0];
    }
  }
}
