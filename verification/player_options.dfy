/** The IFrame player options: an immutable record of eleven integer flags and
    an origin string, its fluent builder, and `toUrlParams`, the encoder that
    turns the record into the `key=value&...` parameter string the player page
    is initialised with. `Decode` is the inverse used to state what the
    encoding preserves. */
module PlayerOptions {
  import opened Wrappers
  import opened Decimal

  /** The eleven integer-valued flags, one constructor per field. */
  datatype Flag =
    | Autoplay | Controls | EnableJsApi | Fullscreen | ModestBranding | Rel
    | ShowInfo | Fs | CcLoadPolicy | IvLoadPolicy | PlaysInline

  /** The order in which the encoder emits the integer flags. */
  const EmitOrder: seq<Flag> :=
    [Autoplay, Controls, EnableJsApi, Fullscreen, ModestBranding, Rel,
     ShowInfo, Fs, CcLoadPolicy, IvLoadPolicy, PlaysInline]

  /** The parameter name of each flag. */
  function Key(f: Flag): string {
    match f
    case Autoplay => "autoplay"
    case Controls => "controls"
    case EnableJsApi => "enablejsapi"
    case Fullscreen => "fullscreen"
    case ModestBranding => "modestbranding"
    case Rel => "rel"
    case ShowInfo => "showinfo"
    case Fs => "fs"
    case CcLoadPolicy => "cc_load_policy"
    case IvLoadPolicy => "iv_load_policy"
    case PlaysInline => "playsinline"
  }

  /** The parameter name of the origin field. */
  const OriginKey: string := "origin"

  /** The options record, fields in declaration order. No field is range
      checked: any `Int` and any string is a value of this type. */
  datatype Options = Options(
    autoplay: Int32,
    controls: Int32,
    enableJsApi: Int32,
    fullscreen: Int32,
    modestBranding: Int32,
    rel: Int32,
    showInfo: Int32,
    fs: Int32,
    ccLoadPolicy: Int32,
    ivLoadPolicy: Int32,
    origin: string,
    playsInline: Int32)
  {
    function Get(f: Flag): Int32 {
      match f
      case Autoplay => autoplay
      case Controls => controls
      case EnableJsApi => enableJsApi
      case Fullscreen => fullscreen
      case ModestBranding => modestBranding
      case Rel => rel
      case ShowInfo => showInfo
      case Fs => fs
      case CcLoadPolicy => ccLoadPolicy
      case IvLoadPolicy => ivLoadPolicy
      case PlaysInline => playsInline
    }
  }

  /** The value of `IFramePlayerOptions()` with every default taken. */
  const Defaults: Options := Options(0, 1, 1, 1, 1, 0, 0, 1, 0, 3, "", 1)

  /** Two option records that agree on every flag and on the origin are equal. */
  lemma OptionsExtensional(a: Options, b: Options)
    requires forall f: Flag :: a.Get(f) == b.Get(f)
    requires a.origin == b.origin
    ensures a == b
  {
    assert a.Get(Autoplay) == b.Get(Autoplay) && a.Get(Controls) == b.Get(Controls);
    assert a.Get(EnableJsApi) == b.Get(EnableJsApi) && a.Get(Fullscreen) == b.Get(Fullscreen);
    assert a.Get(ModestBranding) == b.Get(ModestBranding) && a.Get(Rel) == b.Get(Rel);
    assert a.Get(ShowInfo) == b.Get(ShowInfo) && a.Get(Fs) == b.Get(Fs);
    assert a.Get(CcLoadPolicy) == b.Get(CcLoadPolicy) && a.Get(IvLoadPolicy) == b.Get(IvLoadPolicy);
    assert a.Get(PlaysInline) == b.Get(PlaysInline);
  }

  // ---------------------------------------------------------------- builder

  /** `IFramePlayerOptionsBuilder`: the same twelve fields, each set by its
      own fluent setter and copied out by `build()`. */
  datatype Builder = Builder(
    autoplay: Int32,
    controls: Int32,
    enableJsApi: Int32,
    fullscreen: Int32,
    modestBranding: Int32,
    rel: Int32,
    showInfo: Int32,
    fs: Int32,
    ccLoadPolicy: Int32,
    ivLoadPolicy: Int32,
    origin: string,
    playsInline: Int32)
  {
    function Get(f: Flag): Int32 {
      match f
      case Autoplay => autoplay
      case Controls => controls
      case EnableJsApi => enableJsApi
      case Fullscreen => fullscreen
      case ModestBranding => modestBranding
      case Rel => rel
      case ShowInfo => showInfo
      case Fs => fs
      case CcLoadPolicy => ccLoadPolicy
      case IvLoadPolicy => ivLoadPolicy
      case PlaysInline => playsInline
    }
  }

  /** `IFramePlayerOptions.Builder()`: a builder holding its initial values. */
  const NewBuilder: Builder := Builder(0, 1, 1, 1, 1, 0, 0, 1, 0, 3, "", 1)

  /** The integer setters (`autoplay(..)`, `controls(..)`, ... `playsinline(..)`):
      the named flag takes the new value and nothing else changes. */
  function SetFlag(b: Builder, f: Flag, v: Int32): (r: Builder)
    ensures r.Get(f) == v
    ensures forall g: Flag :: g != f ==> r.Get(g) == b.Get(g)
    ensures r.origin == b.origin
  {
    match f
    case Autoplay => b.(autoplay := v)
    case Controls => b.(controls := v)
    case EnableJsApi => b.(enableJsApi := v)
    case Fullscreen => b.(fullscreen := v)
    case ModestBranding => b.(modestBranding := v)
    case Rel => b.(rel := v)
    case ShowInfo => b.(showInfo := v)
    case Fs => b.(fs := v)
    case CcLoadPolicy => b.(ccLoadPolicy := v)
    case IvLoadPolicy => b.(ivLoadPolicy := v)
    case PlaysInline => b.(playsInline := v)
  }

  /** The `origin(..)` setter: the origin changes and no flag does. */
  function SetOrigin(b: Builder, origin: string): (r: Builder)
    ensures r.origin == origin
    ensures forall g: Flag :: r.Get(g) == b.Get(g)
  {
    b.(origin := origin)
  }

  /** `build()`: every builder field copied, untransformed, into the field of
      the same name. */
  function Build(b: Builder): (r: Options)
    ensures forall f: Flag :: r.Get(f) == b.Get(f)
    ensures r.origin == b.origin
  {
    Options(b.autoplay, b.controls, b.enableJsApi, b.fullscreen, b.modestBranding, b.rel,
            b.showInfo, b.fs, b.ccLoadPolicy, b.ivLoadPolicy, b.origin, b.playsInline)
  }

  /** Two builders that agree on every flag and on the origin are equal. */
  lemma BuilderExtensional(a: Builder, b: Builder)
    requires forall f: Flag :: a.Get(f) == b.Get(f)
    requires a.origin == b.origin
    ensures a == b
  {
    assert a.Get(Autoplay) == b.Get(Autoplay) && a.Get(Controls) == b.Get(Controls);
    assert a.Get(EnableJsApi) == b.Get(EnableJsApi) && a.Get(Fullscreen) == b.Get(Fullscreen);
    assert a.Get(ModestBranding) == b.Get(ModestBranding) && a.Get(Rel) == b.Get(Rel);
    assert a.Get(ShowInfo) == b.Get(ShowInfo) && a.Get(Fs) == b.Get(Fs);
    assert a.Get(CcLoadPolicy) == b.Get(CcLoadPolicy) && a.Get(IvLoadPolicy) == b.Get(IvLoadPolicy);
    assert a.Get(PlaysInline) == b.Get(PlaysInline);
  }

  /** A builder left untouched builds the all-defaults record. */
  lemma BuildNewBuilder()
    ensures Build(NewBuilder) == Defaults
  {
  }

  /** Repeated calls of one setter: the last value wins. */
  lemma SetFlagLastWriteWins(b: Builder, f: Flag, v: Int32, w: Int32)
    ensures SetFlag(SetFlag(b, f, v), f, w) == SetFlag(b, f, w)
  {
    BuilderExtensional(SetFlag(SetFlag(b, f, v), f, w), SetFlag(b, f, w));
  }

  lemma SetOriginLastWriteWins(b: Builder, s: string, t: string)
    ensures SetOrigin(SetOrigin(b, s), t) == SetOrigin(b, t)
  {
  }

  /** Setters of different fields do not interfere, so the order of a
      builder chain does not matter. */
  lemma SettersCommute(b: Builder, f: Flag, v: Int32, g: Flag, w: Int32, s: string)
    requires f != g
    ensures SetFlag(SetFlag(b, f, v), g, w) == SetFlag(SetFlag(b, g, w), f, v)
    ensures SetOrigin(SetFlag(b, f, v), s) == SetFlag(SetOrigin(b, s), f, v)
  {
    BuilderExtensional(SetFlag(SetFlag(b, f, v), g, w), SetFlag(SetFlag(b, g, w), f, v));
    BuilderExtensional(SetOrigin(SetFlag(b, f, v), s), SetFlag(SetOrigin(b, s), f, v));
  }

  /** A record with one flag replaced. */
  function WithFlag(o: Options, f: Flag, v: Int32): (r: Options)
    ensures r.Get(f) == v
    ensures forall g: Flag :: g != f ==> r.Get(g) == o.Get(g)
    ensures r.origin == o.origin
  {
    match f
    case Autoplay => o.(autoplay := v)
    case Controls => o.(controls := v)
    case EnableJsApi => o.(enableJsApi := v)
    case Fullscreen => o.(fullscreen := v)
    case ModestBranding => o.(modestBranding := v)
    case Rel => o.(rel := v)
    case ShowInfo => o.(showInfo := v)
    case Fs => o.(fs := v)
    case CcLoadPolicy => o.(ccLoadPolicy := v)
    case IvLoadPolicy => o.(ivLoadPolicy := v)
    case PlaysInline => o.(playsInline := v)
  }

  /** The record built after a setter differs from the one built before it
      only in that setter's field. */
  lemma BuildAfterSetFlag(b: Builder, f: Flag, v: Int32)
    ensures Build(SetFlag(b, f, v)) == WithFlag(Build(b), f, v)
  {
    OptionsExtensional(Build(SetFlag(b, f, v)), WithFlag(Build(b), f, v));
  }

  // ---------------------------------------------------------------- encoder

  /** One `key=value` pair with the value in decimal. */
  function Pair(key: string, value: Int32): string {
    key + "=" + IntToString(value as int)
  }

  /** `params.joinToString(sep)`: the pieces with `sep` between neighbours and
      nothing before the first or after the last. */
  function Join(pieces: seq<string>, sep: char): string
    decreases |pieces|
  {
    if |pieces| == 0 then ""
    else if |pieces| == 1 then pieces[0]
    else pieces[0] + [sep] + Join(pieces[1..], sep)
  }

  /** The integer-flag pairs, in emission order. */
  function FlagPairs(o: Options): (ps: seq<string>)
    ensures |ps| == 11
    ensures forall i :: 0 <= i < 11 ==> ps[i] == Pair(Key(EmitOrder[i]), o.Get(EmitOrder[i]))
  {
    seq(11, i requires 0 <= i < 11 => Pair(Key(EmitOrder[i]), o.Get(EmitOrder[i])))
  }

  /** The pair list `toUrlParams` builds before joining it: the flags, then
      `origin=<origin>` only when the origin is non-empty. */
  function Params(o: Options): (ps: seq<string>)
    ensures |ps| == if o.origin == "" then 11 else 12
  {
    if o.origin != "" then FlagPairs(o) + [OriginKey + "=" + o.origin] else FlagPairs(o)
  }

  /** The flags always come first, each once, and the origin pair, when
      present, comes last. */
  lemma ParamsShape(o: Options)
    ensures Params(o)[..11] == FlagPairs(o)
    ensures o.origin != "" ==> Params(o)[11] == OriginKey + "=" + o.origin
  {
    if o.origin != "" {
      assert (FlagPairs(o) + [OriginKey + "=" + o.origin])[..11] == FlagPairs(o);
    }
  }

  /** The emission order, spelled out by parameter name. */
  lemma EmitOrderKeys()
    ensures seq(11, i requires 0 <= i < 11 => Key(EmitOrder[i])) ==
      ["autoplay", "controls", "enablejsapi", "fullscreen", "modestbranding", "rel",
       "showinfo", "fs", "cc_load_policy", "iv_load_policy", "playsinline"]
  {
  }

  /** Where each flag sits in the emission order: every flag is emitted. */
  function Position(f: Flag): (i: nat)
    ensures i < |EmitOrder| && EmitOrder[i] == f
  {
    match f
    case Autoplay => 0
    case Controls => 1
    case EnableJsApi => 2
    case Fullscreen => 3
    case ModestBranding => 4
    case Rel => 5
    case ShowInfo => 6
    case Fs => 7
    case CcLoadPolicy => 8
    case IvLoadPolicy => 9
    case PlaysInline => 10
  }

  /** No flag is emitted twice. */
  lemma EmitOrderDistinct(i: nat, j: nat)
    requires i < |EmitOrder| && j < |EmitOrder| && EmitOrder[i] == EmitOrder[j]
    ensures i == j
  {
    assert Position(EmitOrder[i]) == i;
    assert Position(EmitOrder[j]) == j;
  }

  /** `IFramePlayerOptions.toUrlParams()`. */
  function ToUrlParams(o: Options): (r: string)
    ensures |r| >= 9 && r[..9] == "autoplay="
  {
    var ps := Params(o);
    JoinFirst(ps, '&');
    Join(ps, '&')
  }

  // ---------------------------------------------------------------- decoder

  /** Splits `s` at the first `sep`: the part before it, and the part after it
      when `sep` occurs at all. */
  function SplitFirst(s: string, sep: char): (string, Option<string>)
    decreases |s|
  {
    if |s| == 0 then ("", None)
    else if s[0] == sep then ("", Some(s[1..]))
    else
      var (head, tail) := SplitFirst(s[1..], sep);
      ([s[0]] + head, tail)
  }

  /** Reads `key=<decimal>` with the value in the `Int` range. */
  function ParsePair(piece: string, key: string): Option<Int32> {
    var n := |key| + 1;
    if |piece| >= n && piece[..n] == key + "=" then
      match ParseInt(piece[n..])
      case Some(v) => if -0x8000_0000 <= v < 0x8000_0000 then Some(v as Int32) else None
      case None => None
    else None
  }

  /** Reads one `&`-terminated pair per flag of `flags`; the last pair may end
      the string. Yields the values and what follows the last pair's `&`. */
  function DecodeFlags(s: string, flags: seq<Flag>): (r: Option<(seq<Int32>, Option<string>)>)
    requires |flags| > 0
    ensures r.Some? ==> |r.value.0| == |flags|
    decreases |flags|
  {
    var (head, tail) := SplitFirst(s, '&');
    match ParsePair(head, Key(flags[0]))
    case None => None
    case Some(v) =>
      if |flags| == 1 then Some(([v], tail))
      else match tail
        case None => None
        case Some(t) =>
          match DecodeFlags(t, flags[1..])
          case None => None
          case Some(res) => Some(([v] + res.0, res.1))
  }

  /** Rebuilds a record from the values in emission order and an origin. */
  function FromValues(vs: seq<Int32>, origin: string): Options
    requires |vs| == 11
  {
    Options(vs[0], vs[1], vs[2], vs[3], vs[4], vs[5], vs[6], vs[7], vs[8], vs[9], origin, vs[10])
  }

  /** Inverse of `ToUrlParams`: the eleven flags in emission order, then
      optionally `&origin=` followed by a non-empty origin (which may itself
      contain `&`). */
  function Decode(s: string): Option<Options> {
    match DecodeFlags(s, EmitOrder)
    case None => None
    case Some(res) =>
      match res.1
      case None => Some(FromValues(res.0, ""))
      case Some(t) =>
        var n := |OriginKey| + 1;
        if |t| > n && t[..n] == OriginKey + "=" then Some(FromValues(res.0, t[n..])) else None
  }

  // ---------------------------------------------------------------- lemmas about Join

  lemma JoinFirst(ps: seq<string>, sep: char)
    requires |ps| > 0
    ensures |Join(ps, sep)| >= |ps[0]| && Join(ps, sep)[..|ps[0]|] == ps[0]
  {
  }

  lemma {:induction false} JoinSnoc(ps: seq<string>, x: string, sep: char)
    requires |ps| > 0
    ensures Join(ps + [x], sep) == Join(ps, sep) + [sep] + x
    decreases |ps|
  {
    if |ps| == 1 {
      assert (ps + [x])[1..] == [x];
    } else {
      assert (ps + [x])[1..] == ps[1..] + [x];
      JoinSnoc(ps[1..], x, sep);
    }
  }

  /** Number of occurrences of `c` in `s`. */
  function Count(s: string, c: char): nat
    decreases |s|
  {
    if |s| == 0 then 0 else (if s[0] == c then 1 else 0) + Count(s[1..], c)
  }

  lemma {:induction false} CountAppend(a: string, b: string, c: char)
    ensures Count(a + b, c) == Count(a, c) + Count(b, c)
    decreases |a|
  {
    if |a| > 0 {
      assert (a + b)[1..] == a[1..] + b;
      CountAppend(a[1..], b, c);
    } else {
      assert a + b == b;
    }
  }

  /** Sum of the occurrences of `c` over all pieces. */
  function CountAll(ps: seq<string>, c: char): nat
    decreases |ps|
  {
    if |ps| == 0 then 0 else Count(ps[0], c) + CountAll(ps[1..], c)
  }

  /** Joining adds exactly one separator between each pair of neighbours. */
  lemma {:induction false} JoinCount(ps: seq<string>, sep: char)
    requires |ps| > 0
    ensures Count(Join(ps, sep), sep) == |ps| - 1 + CountAll(ps, sep)
    decreases |ps|
  {
    if |ps| > 1 {
      CountAppend(ps[0] + [sep], Join(ps[1..], sep), sep);
      CountAppend(ps[0], [sep], sep);
      assert Count([sep], sep) == 1 by { assert [sep][1..] == []; }
      JoinCount(ps[1..], sep);
    } else {
      assert CountAll(ps, sep) == Count(ps[0], sep) by { assert ps[1..] == []; }
    }
  }

  // ---------------------------------------------------------------- properties of the encoding

  /** `toUrlParams` emits one `&` between neighbouring pairs and none before
      the first or after the last, so apart from any `&` inside the origin
      the separator count is the pair count minus one. */
  lemma SeparatorCount(o: Options)
    ensures Count(ToUrlParams(o), '&') == |Params(o)| - 1 + Count(o.origin, '&')
  {
    var ps := Params(o);
    JoinCount(ps, '&');
    var flags := FlagPairs(o);
    forall i | 0 <= i < |flags|
      ensures '&' !in flags[i]
    {
      KeyHasNoSeparator(EmitOrder[i]);
      PairHasNoSeparator(Key(EmitOrder[i]), o.Get(EmitOrder[i]));
    }
    CountAllNone(flags, '&');
    if o.origin != "" {
      var last := OriginKey + "=" + o.origin;
      assert ps == flags + [last];
      CountAllAppend(flags, [last], '&');
      CountAppend(OriginKey + "=", o.origin, '&');
      NoSeparatorCount(OriginKey + "=", '&');
      assert CountAll([last], '&') == Count(last, '&') by { assert [last][1..] == []; }
    } else {
      assert ps == flags;
    }
  }

  lemma {:induction false} CountAllNone(ps: seq<string>, c: char)
    requires forall i :: 0 <= i < |ps| ==> c !in ps[i]
    ensures CountAll(ps, c) == 0
    decreases |ps|
  {
    if |ps| > 0 {
      NoSeparatorCount(ps[0], c);
      CountAllNone(ps[1..], c);
    }
  }

  lemma {:induction false} CountAllAppend(a: seq<string>, b: seq<string>, c: char)
    ensures CountAll(a + b, c) == CountAll(a, c) + CountAll(b, c)
    decreases |a|
  {
    if |a| > 0 {
      assert (a + b)[1..] == a[1..] + b;
      CountAllAppend(a[1..], b, c);
    } else {
      assert a + b == b;
    }
  }

  lemma {:induction false} NoSeparatorCount(s: string, c: char)
    requires c !in s
    ensures Count(s, c) == 0
    decreases |s|
  {
    if |s| > 0 {
      assert s[1..] <= s[1..];
      assert forall x :: x in s[1..] ==> x in s;
      NoSeparatorCount(s[1..], c);
    }
  }

  lemma KeyHasNoSeparator(f: Flag)
    ensures '&' !in Key(f)
  {
    match f
    case Autoplay => {} case Controls => {} case EnableJsApi => {} case Fullscreen => {}
    case ModestBranding => {} case Rel => {} case ShowInfo => {} case Fs => {}
    case CcLoadPolicy => {} case IvLoadPolicy => {} case PlaysInline => {}
  }

  lemma IntToStringHasNoSeparator(i: int)
    ensures '&' !in IntToString(i)
  {
    var r := IntToString(i);
    var k0 := if i < 0 then 1 else 0;
    forall k | 0 <= k < |r|
      ensures r[k] != '&'
    {
      if k >= k0 {
        assert r[k0..][k - k0] == r[k];
      }
    }
  }

  lemma PairHasNoSeparator(key: string, v: Int32)
    requires '&' !in key
    ensures '&' !in Pair(key, v)
  {
    IntToStringHasNoSeparator(v as int);
  }

  /** Each flag pair holds no separator and reads back, with the reference
      decoder's pair parser, as that flag's value under that flag's name. */
  lemma FlagPairsDecode(o: Options, i: nat)
    requires i < 11
    ensures '&' !in FlagPairs(o)[i]
    ensures ParsePair(FlagPairs(o)[i], Key(EmitOrder[i])) == Some(o.Get(EmitOrder[i]))
  {
    KeyHasNoSeparator(EmitOrder[i]);
    PairHasNoSeparator(Key(EmitOrder[i]), o.Get(EmitOrder[i]));
    ParsePairRoundTrip(Key(EmitOrder[i]), o.Get(EmitOrder[i]));
  }

  /** Without an origin the string ends with the `playsinline` pair. */
  lemma EncodingEndsWithPlaysInline(o: Options)
    requires o.origin == ""
    ensures var r := ToUrlParams(o); var last := Pair(Key(PlaysInline), o.playsInline);
      |r| >= |last| && r[|r| - |last|..] == last
  {
    var flags := FlagPairs(o);
    assert Params(o) == flags[..10] + [flags[10]];
    JoinSnoc(flags[..10], flags[10], '&');
  }

  /** With an origin the string ends with `&origin=` and the origin itself. */
  lemma EncodingEndsWithOrigin(o: Options)
    requires o.origin != ""
    ensures var r := ToUrlParams(o); var last := "&" + OriginKey + "=" + o.origin;
      |r| >= |last| && r[|r| - |last|..] == last
  {
    ToUrlParamsShape(o);
    OriginRest(o);
    EndsWith(Join(FlagPairs(o), '&'), "&" + OriginKey + "=" + o.origin);
  }

  lemma OriginRest(o: Options)
    requires o.origin != ""
    ensures Rest(OriginTail(o)) == "&" + OriginKey + "=" + o.origin
  {
  }

  lemma EndsWith(j: string, last: string)
    ensures (j + last)[|j + last| - |last|..] == last
  {
  }

  // ---------------------------------------------------------------- round trip

  /** What follows the flag pairs: nothing, or `&` and the rest. */
  function Rest(tail: Option<string>): string {
    match tail
    case None => ""
    case Some(t) => "&" + t
  }

  lemma {:induction false} SplitFirstAt(p: string, rest: string, sep: char)
    requires sep !in p
    ensures SplitFirst(p + [sep] + rest, sep) == (p, Some(rest))
    ensures SplitFirst(p, sep) == (p, None)
    decreases |p|
  {
    if |p| > 0 {
      assert (p + [sep] + rest)[1..] == p[1..] + [sep] + rest;
      assert forall x :: x in p[1..] ==> x in p;
      SplitFirstAt(p[1..], rest, sep);
      assert [p[0]] + p[1..] == p;
    } else {
      assert p + [sep] + rest == [sep] + rest;
    }
  }

  lemma ParsePairRoundTrip(key: string, v: Int32)
    ensures ParsePair(Pair(key, v), key) == Some(v)
  {
    var piece := Pair(key, v);
    var n := |key| + 1;
    assert piece[..n] == key + "=";
    assert piece[n..] == IntToString(v as int);
    IntToStringRoundTrip(v as int);
  }

  /** One step of the decoder: a pair followed by nothing or by `&...`. */
  lemma DecodeHead(f: Flag, v: Int32, tail: Option<string>)
    ensures SplitFirst(Pair(Key(f), v) + Rest(tail), '&') == (Pair(Key(f), v), tail)
    ensures ParsePair(Pair(Key(f), v), Key(f)) == Some(v)
  {
    var piece := Pair(Key(f), v);
    KeyHasNoSeparator(f);
    PairHasNoSeparator(Key(f), v);
    ParsePairRoundTrip(Key(f), v);
    match tail
    case None =>
      assert piece + Rest(tail) == piece;
      SplitFirstAt(piece, "", '&');
    case Some(t) =>
      assert piece + Rest(tail) == piece + ['&'] + t;
      SplitFirstAt(piece, t, '&');
  }

  /** The decoder on a single pair followed by nothing or by `&...`. */
  lemma DecodeLastFlag(flags: seq<Flag>, v: Int32, tail: Option<string>)
    requires |flags| == 1
    ensures DecodeFlags(Pair(Key(flags[0]), v) + Rest(tail), flags) == Some(([v], tail))
  {
    DecodeHead(flags[0], v, tail);
  }

  /** The decoder reads one pair and recurses on what follows its `&`. */
  lemma DecodeNextFlag(flags: seq<Flag>, v: Int32, more: string)
    requires |flags| > 1
    ensures DecodeFlags(Pair(Key(flags[0]), v) + Rest(Some(more)), flags) ==
      match DecodeFlags(more, flags[1..])
      case None => None
      case Some(res) => Some(([v] + res.0, res.1))
  {
    DecodeHead(flags[0], v, Some(more));
  }

  lemma RegroupSeparator(a: string, b: string, r: string)
    ensures (a + ['&'] + b) + r == a + Rest(Some(b + r))
  {
  }

  lemma {:induction false} DecodeFlagsJoin(flags: seq<Flag>, vs: seq<Int32>, ps: seq<string>, tail: Option<string>)
    requires |flags| == |vs| == |ps| > 0
    requires forall i :: 0 <= i < |ps| ==> ps[i] == Pair(Key(flags[i]), vs[i])
    ensures DecodeFlags(Join(ps, '&') + Rest(tail), flags) == Some((vs, tail))
    decreases |ps|
  {
    if |ps| == 1 {
      DecodeLastFlag(flags, vs[0], tail);
      assert [vs[0]] == vs;
    } else {
      var rest := Join(ps[1..], '&');
      assert Join(ps, '&') == ps[0] + ['&'] + rest;
      RegroupSeparator(ps[0], rest, Rest(tail));
      DecodeNextFlag(flags, vs[0], rest + Rest(tail));
      DecodeFlagsJoin(flags[1..], vs[1..], ps[1..], tail);
      assert [vs[0]] + vs[1..] == vs;
    }
  }

  /** The flag values in emission order. */
  function FlagValues(o: Options): (vs: seq<Int32>)
    ensures |vs| == 11
  {
    seq(11, i requires 0 <= i < 11 => o.Get(EmitOrder[i]))
  }

  lemma FromFlagValues(o: Options)
    ensures FromValues(FlagValues(o), o.origin) == o
  {
    var vs := FlagValues(o);
    assert vs[0] == o.autoplay && vs[1] == o.controls && vs[2] == o.enableJsApi;
    assert vs[3] == o.fullscreen && vs[4] == o.modestBranding && vs[5] == o.rel;
    assert vs[6] == o.showInfo && vs[7] == o.fs && vs[8] == o.ccLoadPolicy;
    assert vs[9] == o.ivLoadPolicy && vs[10] == o.playsInline;
  }

  /** The origin pair, when present, is the text after the flags' last `&`. */
  function OriginTail(o: Options): Option<string> {
    if o.origin == "" then None else Some(OriginKey + "=" + o.origin)
  }

  lemma ToUrlParamsShape(o: Options)
    ensures ToUrlParams(o) == Join(FlagPairs(o), '&') + Rest(OriginTail(o))
  {
    if o.origin == "" {
      assert Params(o) == FlagPairs(o);
    } else {
      ShapeWithOrigin(o, FlagPairs(o), OriginKey + "=" + o.origin);
    }
  }

  lemma ShapeWithOrigin(o: Options, flags: seq<string>, last: string)
    requires o.origin != "" && flags == FlagPairs(o) && last == OriginKey + "=" + o.origin
    ensures Join(Params(o), '&') == Join(flags, '&') + Rest(Some(last))
  {
    JoinSnoc(flags, last, '&');
    AppendSeparator(Join(flags, '&'), last);
  }

  lemma AppendSeparator(j: string, last: string)
    ensures j + ['&'] + last == j + Rest(Some(last))
  {
  }

  /** Decoding recovers every field, the origin included, for every record:
      the encoding loses nothing and is injective. */
  lemma DecodeToUrlParams(o: Options)
    ensures Decode(ToUrlParams(o)) == Some(o)
  {
    var vs := FlagValues(o);
    ToUrlParamsShape(o);
    DecodeFlagsJoin(EmitOrder, vs, FlagPairs(o), OriginTail(o));
    FromFlagValues(o);
    if o.origin != "" {
      var t := OriginKey + "=" + o.origin;
      assert t[..|OriginKey| + 1] == OriginKey + "=";
      assert t[|OriginKey| + 1..] == o.origin;
    }
  }

  lemma ToUrlParamsInjective(a: Options, b: Options)
    ensures ToUrlParams(a) == ToUrlParams(b) ==> a == b
  {
    DecodeToUrlParams(a);
    DecodeToUrlParams(b);
  }

  /** The pairs the default record is encoded from, spelled out. */
  const DefaultPairs: seq<string> :=
    ["autoplay=0", "controls=1", "enablejsapi=1", "fullscreen=1", "modestbranding=1", "rel=0",
     "showinfo=0", "fs=1", "cc_load_policy=0", "iv_load_policy=3", "playsinline=1"]

  lemma SmallDigits()
    ensures IntToString(0) == "0" && IntToString(1) == "1" && IntToString(3) == "3"
  {
  }

  lemma DefaultPairsFirst()
    ensures FlagPairs(Defaults)[0] == "autoplay=0" &&
      FlagPairs(Defaults)[1] == "controls=1" &&
      FlagPairs(Defaults)[2] == "enablejsapi=1" &&
      FlagPairs(Defaults)[3] == "fullscreen=1"
  {
    SmallDigits();
  }

  lemma DefaultPairsMiddle()
    ensures FlagPairs(Defaults)[4] == "modestbranding=1" &&
      FlagPairs(Defaults)[5] == "rel=0" &&
      FlagPairs(Defaults)[6] == "showinfo=0" &&
      FlagPairs(Defaults)[7] == "fs=1"
  {
    SmallDigits();
  }

  lemma DefaultPairsLast()
    ensures FlagPairs(Defaults)[8] == "cc_load_policy=0" &&
      FlagPairs(Defaults)[9] == "iv_load_policy=3" &&
      FlagPairs(Defaults)[10] == "playsinline=1"
  {
    SmallDigits();
  }

  /** The default record's parameter string: the eleven default pairs and
      no origin pair. */
  lemma DefaultsEncoding()
    ensures ToUrlParams(Defaults) ==
      "autoplay=0&controls=1&enablejsapi=1&" + "fullscreen=1&modestbranding=1&rel=0&" +
      "showinfo=0&fs=1&cc_load_policy=0&" + "iv_load_policy=3&playsinline=1"
  {
    DefaultFlagPairs();
    assert Params(Defaults) == FlagPairs(Defaults);
    DefaultJoin();
  }

  lemma DefaultJoin()
    ensures Join(DefaultPairs, '&') ==
      "autoplay=0&controls=1&enablejsapi=1&" + "fullscreen=1&modestbranding=1&rel=0&" +
      "showinfo=0&fs=1&cc_load_policy=0&" + "iv_load_policy=3&playsinline=1"
  {
    var ps := DefaultPairs;
    JoinEleven(ps, '&');
    ChunkOne();
    ChunkTwo();
    ChunkThree();
    ChunkFour();
  }

  /** `Join` of eleven pieces, grouped three, three, three and two. */
  lemma JoinEleven(ps: seq<string>, sep: char)
    requires |ps| == 11
    ensures Join(ps, sep) ==
      (ps[0] + [sep] + ps[1] + [sep] + ps[2] + [sep]) + (ps[3] + [sep] + ps[4] + [sep] + ps[5] + [sep]) +
      (ps[6] + [sep] + ps[7] + [sep] + ps[8] + [sep]) + (ps[9] + [sep] + ps[10])
  {
    JoinThree(ps, 0, sep);
    JoinThree(ps, 3, sep);
    JoinThree(ps, 6, sep);
    JoinFrom(ps, 9, sep);
    assert ps[10..] == [ps[10]];
    assert ps[0..] == ps;
  }

  lemma ChunkOne()
    ensures "autoplay=0" + "&" + "controls=1" + "&" + "enablejsapi=1" + "&" == "autoplay=0&controls=1&enablejsapi=1&"
  {
  }

  lemma ChunkTwo()
    ensures "fullscreen=1" + "&" + "modestbranding=1" + "&" + "rel=0" + "&" == "fullscreen=1&modestbranding=1&rel=0&"
  {
  }

  lemma ChunkThree()
    ensures "showinfo=0" + "&" + "fs=1" + "&" + "cc_load_policy=0" + "&" == "showinfo=0&fs=1&cc_load_policy=0&"
  {
  }

  lemma ChunkFour()
    ensures "iv_load_policy=3" + "&" + "playsinline=1" == "iv_load_policy=3&playsinline=1"
  {
  }

  lemma JoinThree(ps: seq<string>, k: nat, sep: char)
    requires k + 3 < |ps|
    ensures Join(ps[k..], sep) == ps[k] + [sep] + ps[k + 1] + [sep] + ps[k + 2] + [sep] + Join(ps[k + 3..], sep)
  {
    JoinFrom(ps, k, sep);
    JoinFrom(ps, k + 1, sep);
    JoinFrom(ps, k + 2, sep);
  }

  lemma JoinFrom(ps: seq<string>, k: nat, sep: char)
    requires k + 1 < |ps|
    ensures Join(ps[k..], sep) == ps[k] + [sep] + Join(ps[k + 1..], sep)
  {
    assert ps[k..][1..] == ps[k + 1..];
  }

  lemma DefaultFlagPairs()
    ensures FlagPairs(Defaults) == DefaultPairs
  {
    DefaultPairsFirst();
    DefaultPairsMiddle();
    DefaultPairsLast();
    SameEleven(FlagPairs(Defaults), DefaultPairs);
  }

  lemma SameEleven(a: seq<string>, b: seq<string>)
    requires |a| == 11 && |b| == 11
    requires a[0] == b[0] && a[1] == b[1] && a[2] == b[2] && a[3] == b[3] && a[4] == b[4] && a[5] == b[5]
    requires a[6] == b[6] && a[7] == b[7] && a[8] == b[8] && a[9] == b[9] && a[10] == b[10]
    ensures a == b
  {
    assert forall i :: 0 <= i < 11 ==> a[i] == b[i];
  }
}
