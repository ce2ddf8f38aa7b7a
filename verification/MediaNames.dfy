/** File names of media: kinds, the key that pairs a clip with its proxy, and identifiers in decimal. */
module MediaNames {
  import opened Wrappers
  import opened Text

  // ---- Paths ------------------------------------------------------------------------------

  /** Where the last such rune is, or -1. */
  function LastIndex(s: string, c: char): (i: int)
    ensures -1 <= i < |s|
  {
    if s == "" then -1 else if s[|s| - 1] == c then |s| - 1 else LastIndex(s[..|s| - 1], c)
  }

  lemma {:induction false} LastIndexFinds(s: string, c: char)
    ensures LastIndex(s, c) >= 0 ==> s[LastIndex(s, c)] == c
    ensures forall k :: LastIndex(s, c) < k < |s| ==> s[k] != c
  {
    if s != "" {
      LastIndexFinds(s[..|s| - 1], c);
    }
  }

  /** `filepath.Base` of a file's path. */
  function Base(p: string): string {
    p[LastIndex(p, '/') + 1..]
  }

  /** `filepath.Dir` of a clean path. */
  function Dir(p: string): string {
    var i := LastIndex(p, '/');
    if i < 0 then "." else if i == 0 then "/" else p[..i]
  }

  /** `filepath.Ext`: from the last dot after the last slash. */
  function Ext(p: string): string {
    var dot := LastIndex(p, '.');
    if dot > LastIndex(p, '/') then p[dot..] else ""
  }

  /** `strings.TrimSuffix`. */
  function TrimSuffix(s: string, suffix: string): string {
    if |suffix| <= |s| && s[|s| - |suffix|..] == suffix then s[..|s| - |suffix|] else s
  }

  /** A file name without its extension. */
  function Stem(name: string): string {
    var dot := LastIndex(name, '.');
    if dot >= 0 then name[..dot] else name
  }

  datatype Kind = Photo | Video | NoMedia

  function MediaKind(name: string): Kind {
    var ext := Upper(Ext(name));
    if ext in {".JPG", ".JPEG", ".DNG", ".PNG", ".HEIC", ".HEIF", ".WEBP", ".TIF", ".TIFF", ".RAW"} then Photo
    else if ext in {".MP4", ".MOV", ".M4V", ".AVI", ".MKV"} then Video
    else NoMedia
  }

  /** A low-resolution proxy clip. */
  predicate IsProxy(p: string) {
    EqualFold(Ext(p), ".lrf")
  }

  // ---- Pairing keys -----------------------------------------------------------------------

  /** The key under which a mounted file is paired. */
  function FsProxyKey(p: string): string {
    Dir(p) + "/" + Upper(TrimSuffix(Base(p), Ext(p)))
  }

  /** The key under which a file of an MTP device is paired. */
  function ProxyKey(parentId: nat, name: string): string {
    Format(parentId) + "/" + Upper(TrimSuffix(name, Ext(name)))
  }

  /** Two files of one recording: same directory, same name but for extension and case. */
  predicate SameClip(p: string, q: string) {
    Dir(p) == Dir(q) && EqualFold(Stem(Base(p)), Stem(Base(q)))
  }

  lemma LastIndexIs(s: string, c: char, i: int)
    requires -1 <= i < |s| && (i >= 0 ==> s[i] == c) && forall k :: i < k < |s| ==> s[k] != c
    ensures LastIndex(s, c) == i
  {
    LastIndexFinds(s, c);
  }

  lemma LastIndexOfRest(p: string, c: char, from: nat)
    requires from <= |p|
    ensures LastIndex(p[from..], c) == if LastIndex(p, c) >= from then LastIndex(p, c) - from else -1
  {
    hide LastIndex;
    var rest := p[from..];
    var i := LastIndex(p, c);
    LastIndexFinds(p, c);
    assert forall k :: 0 <= k < |rest| ==> rest[k] == p[from + k];
    LastIndexIs(rest, c, if i >= from then i - from else -1);
  }

  lemma BaseHasNoSlash(p: string)
    ensures '/' !in Base(p)
  {
    LastIndexOfRest(p, '/', LastIndex(p, '/') + 1);
    LastIndexFinds(Base(p), '/');
  }

  lemma BaseStem(p: string)
    ensures TrimSuffix(Base(p), Ext(p)) == Stem(Base(p))
  {
    hide LastIndex, TrimSuffix;
    var slash, dot := LastIndex(p, '/'), LastIndex(p, '.');
    var base := Base(p);
    LastIndexOfRest(p, '.', slash + 1);
    if dot > slash {
      var cut := dot - slash - 1;
      assert base[cut..] == p[dot..];
      TrimTail(base, cut);
    } else {
      assert base[|base|..] == "" && base[..|base|] == base;
      TrimTail(base, |base|);
    }
  }

  lemma TrimTail(s: string, cut: nat)
    requires cut <= |s|
    ensures TrimSuffix(s, s[cut..]) == s[..cut]
  {
    assert |s| - |s[cut..]| == cut;
  }

  lemma StemWithin(name: string)
    requires '/' !in name
    ensures '/' !in Upper(Stem(name))
  {
    forall i | 0 <= i < |Upper(Stem(name))|
      ensures Upper(Stem(name))[i] != '/'
    {
      assert name[i] in name;
    }
  }

  /** A directory and a slash-free name can be told apart again. */
  lemma LastSlashSplits(a: string, u: string, b: string, v: string)
    requires '/' !in u && '/' !in v
    ensures a + "/" + u == b + "/" + v <==> a == b && u == v
  {
    var s, t := a + "/" + u, b + "/" + v;
    LastIndexIs(s, '/', |a|);
    LastIndexIs(t, '/', |b|);
    if s == t {
      assert a == s[..|a|] == t[..|b|] == b;
      assert u == s[|a| + 1..] == t[|b| + 1..] == v;
    }
  }

  /** Keys agree exactly for two files of one recording. */
  lemma FsKeysMeanSameClip(p: string, q: string)
    ensures FsProxyKey(p) == FsProxyKey(q) <==> SameClip(p, q)
  {
    hide Base, Dir, Ext, Stem, TrimSuffix, Upper;
    BaseStem(p);
    BaseStem(q);
    BaseHasNoSlash(p);
    BaseHasNoSlash(q);
    StemWithin(Base(p));
    StemWithin(Base(q));
    LastSlashSplits(Dir(p), Upper(Stem(Base(p))), Dir(q), Upper(Stem(Base(q))));
  }

  // ---- Decimal identifiers ----------------------------------------------------------------

  const UINT32 := 0x1_0000_0000

  predicate IsDigit(c: char) {
    '0' <= c <= '9'
  }

  /** `strconv.FormatUint` in base 10. */
  function Format(n: nat): (s: string)
    ensures s != "" && forall k :: 0 <= k < |s| ==> IsDigit(s[k])
  {
    var last := [('0' as int + n % 10) as char];
    if n < 10 then last else Format(n / 10) + last
  }

  /** The number some digits stand for. */
  function Value(s: string): nat
    requires forall k :: 0 <= k < |s| ==> IsDigit(s[k])
  {
    if s == "" then 0
    else
      var d := s[|s| - 1];
      assert IsDigit(d);
      Value(s[..|s| - 1]) * 10 + (d as int - '0' as int)
  }

  /** An identifier from a request: decimal, at most 32 bits, surrounding white space ignored. */
  function ParseObjectId(id: string): (oid: Option<nat>)
    ensures oid.Some? ==> oid.value < UINT32
  {
    var s := TrimSpace(id);
    if s == "" || exists k :: 0 <= k < |s| && !IsDigit(s[k]) then None
    else if Value(s) < UINT32 then Some(Value(s)) else None
  }

  lemma {:induction false} ValueFormat(n: nat)
    ensures Value(Format(n)) == n
  {
    var s := Format(n);
    if n >= 10 {
      ValueFormat(n / 10);
      assert s[..|s| - 1] == Format(n / 10);
    } else {
      assert s[..|s| - 1] == "";
    }
  }

  /** Formatting and parsing are inverse. */
  lemma ParseFormat(n: nat)
    ensures ParseObjectId(Format(n)) == if n < UINT32 then Some(n) else None
  {
    hide Value;
    var s := Format(n);
    assert !IsSpace(s[0]) && !IsSpace(s[|s| - 1]) by {
      DigitIsNoSpace(s[0]);
      DigitIsNoSpace(s[|s| - 1]);
    }
    assert TrimSpace(s) == s;
    ValueFormat(n);
  }

  lemma DigitIsNoSpace(c: char)
    requires IsDigit(c)
    ensures !IsSpace(c)
  {
  }

  /** A number and a name can be told apart again, whatever the name holds. */
  lemma FirstSlashSplits(a: string, u: string, b: string, v: string)
    requires '/' !in a && '/' !in b
    ensures a + "/" + u == b + "/" + v <==> a == b && u == v
  {
    var s, t := a + "/" + u, b + "/" + v;
    if s == t {
      NotLonger(a, u, b, v);
      NotLonger(b, v, a, u);
      assert a == s[..|a|] == t[..|b|] == b;
      assert u == s[|a| + 1..] == t[|b| + 1..] == v;
    }
  }

  lemma NotLonger(a: string, u: string, b: string, v: string)
    requires a + "/" + u == b + "/" + v && '/' !in b
    ensures |b| <= |a|
  {
    assert (a + "/" + u)[|a|] == '/';
    assert forall k :: 0 <= k < |b| ==> (b + "/" + v)[k] == b[k] && b[k] in b;
  }

  /** On an MTP device: same folder, same name but for extension and case. */
  lemma MtpKeysMeanSameClip(parentA: nat, nameA: string, parentB: nat, nameB: string)
    ensures ProxyKey(parentA, nameA) == ProxyKey(parentB, nameB) <==>
              parentA == parentB && EqualFold(TrimSuffix(nameA, Ext(nameA)), TrimSuffix(nameB, Ext(nameB)))
  {
    hide Upper, Ext, TrimSuffix;
    NoSlashIn(parentA);
    NoSlashIn(parentB);
    ValueFormat(parentA);
    ValueFormat(parentB);
    FirstSlashSplits(Format(parentA), Upper(TrimSuffix(nameA, Ext(nameA))),
                     Format(parentB), Upper(TrimSuffix(nameB, Ext(nameB))));
  }

  lemma NoSlashIn(n: nat)
    ensures '/' !in Format(n)
  {
    var s := Format(n);
    assert forall k :: 0 <= k < |s| ==> IsDigit(s[k]);
  }

  // ---- Names spelled out ------------------------------------------------------------------

  lemma LastOf(a: string, c: char, b: string)
    requires c !in b
    ensures LastIndex(a + [c] + b, c) == |a|
  {
    hide LastIndex;
    NotAfter(a + [c], c, b);
    assert (a + [c])[|a|] == c;
    LastIndexIs(a + [c] + b, c, |a|);
  }

  lemma NotAfter(a: string, c: char, b: string)
    requires c !in b
    ensures forall k :: |a| <= k < |a + b| ==> (a + b)[k] != c
  {
    forall k | |a| <= k < |a + b|
      ensures (a + b)[k] != c
    {
      assert (a + b)[k] == b[k - |a|];
    }
  }

  lemma NoneOf(s: string, c: char)
    requires c !in s
    ensures LastIndex(s, c) == -1
  {
    hide LastIndex;
    LastIndexIs(s, c, -1);
  }

  /** A file in a directory, with its name and extension. */
  lemma PathParts(dir: string, stem: string, ext: string)
    requires dir != "" && '/' !in stem && '/' !in ext && '.' !in ext
    ensures var name := stem + "." + ext;
            var p := dir + "/" + name;
            && Dir(p) == dir && Base(p) == name && Ext(p) == "." + ext
            && Ext(name) == "." + ext && Stem(name) == stem && TrimSuffix(name, Ext(name)) == stem
  {
    hide LastIndex;
    var name := stem + "." + ext;
    var p := dir + "/" + name;
    LastOf(dir, '/', name);
    LastOf(stem, '.', ext);
    NoneOf(name, '/');
    assert p == dir + "/" + stem + "." + ext;
    LastOf(dir + "/" + stem, '.', ext);
    assert p[|dir| + 1..] == name && p[..|dir|] == dir;
    assert p[|dir| + 1 + |stem|..] == "." + ext == name[|stem|..] && name[..|stem|] == stem;
  }

  /** Which extensions make a photo, a video and a proxy clip, in whatever case. */
  lemma Kinds(stem: string, ext: string)
    requires '/' !in stem && '/' !in ext && '.' !in ext
    ensures var e := "." + Upper(ext);
            && MediaKind(stem + "." + ext) ==
                 (if e in {".JPG", ".JPEG", ".DNG", ".PNG", ".HEIC", ".HEIF", ".WEBP", ".TIF", ".TIFF", ".RAW"}
                  then Photo
                  else if e in {".MP4", ".MOV", ".M4V", ".AVI", ".MKV"} then Video
                  else NoMedia)
            && (IsProxy(stem + "." + ext) <==> e == ".LRF")
  {
    hide LastIndex, Upper, Ext, Stem, TrimSuffix, Dir, Base;
    PathParts("d", stem, ext);
    DotUpper(ext);
    LrfUpper();
  }

  lemma DotUpper(ext: string)
    ensures Upper("." + ext) == "." + Upper(ext)
  {
    hide Upper;
  }

  lemma LrfUpper()
    ensures Upper(".lrf") == ".LRF"
  {
    hide Upper;
  }

  /** Without an extension a file is neither. */
  lemma NoKind(name: string)
    requires '.' !in name
    ensures MediaKind(name) == NoMedia && !IsProxy(name)
  {
    hide LastIndex, Upper;
    NoneOf(name, '.');
    assert |Upper("")| == 0 && |Upper(".lrf")| == 4;
  }

  // ---- Which texts are identifiers --------------------------------------------------------

  function Zeros(k: nat): string {
    seq(k, _ => '0')
  }

  predicate AllDigits(s: string) {
    forall k :: 0 <= k < |s| ==> IsDigit(s[k])
  }

  /** Leading zeros do not matter, and nothing else is ignored. */
  lemma {:induction false} DigitsAreFormatted(s: string)
    requires s != "" && AllDigits(s)
    ensures exists k :: s == Zeros(k) + Format(Value(s))
  {
    var n := |s| - 1;
    var init, d := s[..n], s[n];
    assert s == init + [d] && IsDigit(d);
    if init == "" {
      assert Value(init) == 0;
      assert s == Zeros(0) + Format(Value(s));
    } else {
      DigitsAreFormatted(init);
      var k :| init == Zeros(k) + Format(Value(init));
      OneMoreDigit(init, d, k);
    }
  }

  lemma OneMoreDigit(init: string, d: char, k: nat)
    requires init != "" && AllDigits(init) && IsDigit(d) && init == Zeros(k) + Format(Value(init))
    ensures AllDigits(init + [d]) && exists j :: init + [d] == Zeros(j) + Format(Value(init + [d]))
  {
    hide Format, Value;
    var s := init + [d];
    ValueSnoc(init, d);
    if Value(init) == 0 {
      SmallDigits(d);
      assert init + [d] == Zeros(k + 1) + [d];
    } else {
      NextDigit(Value(init), d);
      assert init + [d] == Zeros(k) + (Format(Value(init)) + [d]);
    }
  }

  lemma ValueSnoc(init: string, d: char)
    requires AllDigits(init) && IsDigit(d)
    ensures AllDigits(init + [d]) && Value(init + [d]) == Value(init) * 10 + (d as int - '0' as int)
  {
    assert (init + [d])[..|init|] == init;
  }

  lemma SmallDigits(d: char)
    requires IsDigit(d)
    ensures Format(d as int - '0' as int) == [d] && Format(0) == "0"
  {
  }

  lemma NextDigit(n: nat, d: char)
    requires n > 0 && IsDigit(d)
    ensures Format(n * 10 + (d as int - '0' as int)) == Format(n) + [d]
  {
    var m := n * 10 + (d as int - '0' as int);
    assert m / 10 == n && m % 10 == d as int - '0' as int;
  }

  lemma {:induction false} ZerosValue(k: nat, s: string)
    requires AllDigits(s)
    ensures AllDigits(Zeros(k) + s) && Value(Zeros(k) + s) == Value(s)
    decreases |s|
  {
    var all := Zeros(k) + s;
    if s == "" {
      assert all == Zeros(k);
      JustZeros(k);
    } else {
      var n := |s| - 1;
      ZerosValue(k, s[..n]);
      assert all[..|all| - 1] == Zeros(k) + s[..n];
    }
  }

  lemma {:induction false} JustZeros(k: nat)
    ensures AllDigits(Zeros(k)) && Value(Zeros(k)) == 0
  {
    if k > 0 {
      JustZeros(k - 1);
      assert Zeros(k)[..k - 1] == Zeros(k - 1);
    }
  }

  /** The identifiers of a number below 2^32: its decimal digits, after zeros, with white space around them. */
  lemma IdentifiersOf(id: string, n: nat)
    ensures ParseObjectId(id) == Some(n) <==> n < 0x1_0000_0000 && exists k :: TrimSpace(id) == Zeros(k) + Format(n)
  {
    hide Value, TrimSpace, Format;
    var s := TrimSpace(id);
    if s != "" && AllDigits(s) {
      DigitsAreFormatted(s);
    }
    if k :| s == Zeros(k) + Format(n) {
      ZerosValue(k, Format(n));
      ValueFormat(n);
    }
  }
}
