/** The fixed 128-byte character buffers of the name and script components:
    a zero-filled buffer into which `strncat` copies at most 127 bytes of a
    C string, so the buffer always stays NUL-terminated. A `char` here stands
    for one C++ byte: a UTF-8 name is a sequence of bytes, and the cut at 127
    bytes can split a multi-byte character. */
module CharBuffer {
  const NUL: char := 0 as char

  /** Size of both components' buffers in bytes. */
  const BufferSize: nat := 128

  /** `strlen`: the index of the first NUL, or the whole length. */
  function CLength(s: string): (n: nat)
    ensures n <= |s|
    ensures forall j :: 0 <= j < n ==> s[j] != NUL
    ensures n < |s| ==> s[n] == NUL
  {
    if |s| == 0 || s[0] == NUL then 0 else 1 + CLength(s[1..])
  }

  /** The string a `char*` reader sees: everything before the first NUL. */
  function CString(s: string): (r: string)
    ensures NUL !in r && r <= s
  {
    s[..CLength(s)]
  }

  /** A NUL at `k` with none before it fixes the C length at `k`. */
  lemma {:induction false} CLengthAt(s: string, k: nat)
    requires k <= |s| && (k < |s| ==> s[k] == NUL)
    requires forall j :: 0 <= j < k ==> s[j] != NUL
    ensures CLength(s) == k
    decreases k
  {
    if k > 0 {
      CLengthAt(s[1..], k - 1);
    }
  }

  /** A string without NUL is its own C string. */
  lemma CStringOfPlain(s: string)
    requires NUL !in s
    ensures CString(s) == s
  {
    CLengthAt(s, |s|);
  }

  /** `strncat(dest, src, n)`: appends at most `n` characters of the C string
      `src` at the end of the C string `dest` and writes a NUL after them. The
      caller must leave room for the copy and its terminator. */
  function Strncat(dest: string, src: string, n: nat): (r: string)
    requires CLength(dest) + Min(n, CLength(src)) < |dest|
    ensures |r| == |dest|
    ensures CString(r) == CString(dest) + CString(src)[..Min(n, CLength(src))]
    ensures forall j :: CLength(dest) + Min(n, CLength(src)) < j < |dest| ==> r[j] == dest[j]
  {
    var d := CLength(dest);
    var k := Min(n, CLength(src));
    var r := dest[..d] + src[..k] + [NUL] + dest[d + k + 1..];
    assert forall j :: 0 <= j < d ==> r[j] == dest[j];
    assert forall j :: d <= j < d + k ==> r[j] == src[j - d];
    CLengthAt(r, d + k);
    r
  }

  function Min(a: nat, b: nat): nat
  {
    if a <= b then a else b
  }

  /** The buffer after `memset(buffer, 0, 128)`. */
  function Zeroed(): (z: string)
    ensures |z| == BufferSize && forall j :: 0 <= j < |z| ==> z[j] == NUL
  {
    seq(BufferSize, _ => NUL)
  }

  /** The shared body of `SetName` and `SetFileName`: a fresh buffer is zeroed
      and receives `strncat(buffer, s.c_str(), min(|s| + 1, 127))`. */
  function Store(s: string): (b: string)
    ensures |b| == BufferSize
    ensures CString(b) == CString(s)[..Min(CLength(s), BufferSize - 1)]
    ensures b[BufferSize - 1] == NUL
    ensures forall j :: CLength(b) <= j < BufferSize ==> b[j] == NUL
  {
    CLengthAt(Zeroed(), 0);
    var b := Strncat(Zeroed(), s, Min(|s| + 1, BufferSize - 1));
    assert Min(Min(|s| + 1, BufferSize - 1), CLength(s)) == Min(CLength(s), BufferSize - 1);
    b
  }

  /** Strings of at most 127 characters and without NUL come back unchanged. */
  lemma StoreRoundTrip(s: string)
    requires NUL !in s && |s| < BufferSize
    ensures CString(Store(s)) == s
  {
    CStringOfPlain(s);
  }

  lemma StoreKeepsShortStrings(s: string)
    ensures NUL !in s && |s| < BufferSize ==> CString(Store(s)) == s
  {
    if NUL !in s && |s| < BufferSize {
      StoreRoundTrip(s);
    }
  }

  /** Storing the visible string again gives the same buffer, byte for byte. */
  lemma StoreIdempotent(s: string)
    ensures Store(CString(Store(s))) == Store(s)
  {
    var b := Store(s);
    var t := CString(b);
    CStringOfPlain(t);
    var b2 := Store(t);
    assert CString(b2) == t;
    forall j | 0 <= j < BufferSize
      ensures b2[j] == b[j]
    {
      if j < |t| {
        assert b2[j] == CString(b2)[j] && b[j] == CString(b)[j];
      }
    }
  }
}

/** `NameComponent`: a name buffer, and the static counter the default
    constructor uses to give every unnamed entity its own name. */
module NameComponent {
  import opened CharBuffer

  /** `NameComponent::_count` is a `uint64_t`. */
  const CountLimit: nat := 0x1_0000_0000_0000_0000

  datatype NameComponent = NameComponent(buffer: string)

  /** `SetName` replaces the buffer with a fresh one holding the truncated name. */
  function SetName(c: NameComponent, name: string): (r: NameComponent)
    ensures GetName(r) == CString(name)[..Min(CLength(name), BufferSize - 1)]
    ensures |r.buffer| == BufferSize && r.buffer[BufferSize - 1] == NUL
  {
    NameComponent(Store(name))
  }

  /** `GetName` as C reads it. */
  function GetName(c: NameComponent): string
  {
    CString(c.buffer)
  }

  function Digit(d: nat): (c: char)
    requires d < 10
  {
    ('0' as int + d) as char
  }

  /** `std::to_string` of an unsigned integer: decimal without leading zeros. */
  function ToDecimal(n: nat): (s: string)
    ensures |s| > 0 && NUL !in s
    ensures forall j :: 0 <= j < |s| ==> '0' <= s[j] <= '9'
    decreases n
  {
    if n < 10 then [Digit(n)] else ToDecimal(n / 10) + [Digit(n % 10)]
  }

  /** The inverse of `ToDecimal`. */
  function ParseDecimal(s: string): nat
    requires forall j :: 0 <= j < |s| ==> '0' <= s[j] <= '9'
    decreases |s|
  {
    if |s| == 0 then 0
    else ParseDecimal(s[..|s| - 1]) * 10 + (s[|s| - 1] as int - '0' as int)
  }

  lemma {:induction false} DecimalRoundTrip(n: nat)
    ensures ParseDecimal(ToDecimal(n)) == n
    decreases n
  {
    if n >= 10 {
      DecimalRoundTrip(n / 10);
      var s := ToDecimal(n);
      assert s[..|s| - 1] == ToDecimal(n / 10);
    }
  }

  /** A number below 10^k has at most k digits. */
  lemma {:induction false} DecimalLength(n: nat, k: nat)
    requires n < Pow10(k)
    ensures |ToDecimal(n)| <= k || (k == 0 && |ToDecimal(n)| == 1)
    decreases k
  {
    if k > 0 && n >= 10 {
      DecimalLength(n / 10, k - 1);
    }
  }

  function Pow10(k: nat): (p: nat)
    ensures p >= 1
  {
    if k == 0 then 1 else 10 * Pow10(k - 1)
  }

  lemma {:induction false} Pow10Add(a: nat, b: nat)
    ensures Pow10(a + b) == Pow10(a) * Pow10(b)
    decreases a
  {
    if a > 0 {
      Pow10Add(a - 1, b);
    }
  }

  /** Every 64-bit counter value has at most 20 decimal digits. */
  lemma CounterDigits(n: nat)
    requires n < CountLimit
    ensures |ToDecimal(n)| <= 20
  {
    assert Pow10(2) == 100;
    Pow10Add(2, 2);
    Pow10Add(4, 1);
    Pow10Add(5, 5);
    Pow10Add(10, 10);
    DecimalLength(n, 20);
  }

  /** The name the default constructor gives for counter value `count`. */
  function DefaultName(count: nat): string
  {
    "Entity " + ToDecimal(count)
  }

  /** The default constructor: names the component after the counter, then
      increments the 64-bit counter. */
  function NewDefault(count: nat): (r: (NameComponent, nat))
    requires count < CountLimit
    ensures GetName(r.0) == DefaultName(count)
    ensures r.1 == if count + 1 < CountLimit then count + 1 else 0
  {
    CounterDigits(count);
    CStringOfPlain(DefaultName(count));
    (SetName(NameComponent([]), DefaultName(count)), if count + 1 < CountLimit then count + 1 else 0)
  }

  /** The named constructor is `SetName` and leaves the counter alone. */
  function NewNamed(name: string, count: nat): (r: (NameComponent, nat))
    requires count < CountLimit
    ensures r.1 == count
    ensures GetName(r.0) == CString(name)[..Min(CLength(name), BufferSize - 1)]
    ensures NUL !in name && |name| < BufferSize ==> GetName(r.0) == name
  {
    StoreKeepsShortStrings(name);
    (SetName(NameComponent([]), name), count)
  }

  /** Different counter values give different default names. */
  lemma DefaultNamesDistinct(c1: nat, c2: nat)
    requires c1 != c2
    ensures DefaultName(c1) != DefaultName(c2)
  {
    DecimalRoundTrip(c1);
    DecimalRoundTrip(c2);
    assert DefaultName(c1)[7..] == ToDecimal(c1) && DefaultName(c2)[7..] == ToDecimal(c2);
  }

  /** A constructor call: the default one, or the one taking a name. */
  datatype Request = Default | Named(name: string)

  function DefaultsIn(reqs: seq<Request>): (n: nat)
    ensures n <= |reqs|
  {
    if |reqs| == 0 then 0 else DefaultsIn(reqs[..|reqs| - 1]) + (if reqs[|reqs| - 1].Default? then 1 else 0)
  }

  /** One constructor call with the counter at `count`: the component and
      the counter afterwards. */
  function Construct(count: nat, req: Request): (r: (NameComponent, nat))
    requires count < CountLimit
    ensures r.1 < CountLimit
    ensures req.Default? ==> r.1 == if count + 1 < CountLimit then count + 1 else 0
    ensures req.Named? ==> r.1 == count
  {
    if req.Default? then NewDefault(count) else NewNamed(req.name, count)
  }

  /** The counter after the calls `reqs`, made one after another from `count`. */
  function CounterAfter(count: nat, reqs: seq<Request>): (c: nat)
    requires count < CountLimit
    ensures c < CountLimit
    decreases |reqs|
  {
    if |reqs| == 0 then count
    else Construct(CounterAfter(count, reqs[..|reqs| - 1]), reqs[|reqs| - 1]).1
  }

  /** Components built one after another from counter value `count`: call
      `i` sees the counter the calls before it left. */
  function ConstructAll(count: nat, reqs: seq<Request>): (r: (seq<NameComponent>, nat))
    requires count < CountLimit
    ensures |r.0| == |reqs| && r.1 < CountLimit
  {
    (seq(|reqs|, i requires 0 <= i < |reqs| => Construct(CounterAfter(count, reqs[..i]), reqs[i]).0),
     CounterAfter(count, reqs))
  }

  /** While it does not wrap, the counter ends advanced by the number of
      default constructions. */
  lemma {:induction false} ConstructAllCounts(count: nat, reqs: seq<Request>)
    requires count + |reqs| < CountLimit
    ensures CounterAfter(count, reqs) == count + DefaultsIn(reqs)
    decreases |reqs|
  {
    if |reqs| > 0 {
      var init := reqs[..|reqs| - 1];
      ConstructAllCounts(count, init);
    }
  }

  /** The default-constructed component at position `i` is named after the
      counter plus the number of default constructions before it. */
  lemma {:induction false} ConstructAllNames(count: nat, reqs: seq<Request>, i: nat)
    requires i < |reqs| && reqs[i].Default?
    requires count + |reqs| < CountLimit
    ensures GetName(ConstructAll(count, reqs).0[i]) == DefaultName(CounterAfter(count, reqs[..i]))
    ensures CounterAfter(count, reqs[..i]) == count + DefaultsIn(reqs[..i])
  {
    ConstructAllCounts(count, reqs[..i]);
    assert ConstructAll(count, reqs).0[i] == NewDefault(CounterAfter(count, reqs[..i])).0;
  }

  /** Defaults before a later default are strictly more. */
  lemma {:induction false} DefaultsGrow(reqs: seq<Request>, i: nat, j: nat)
    requires i < j <= |reqs| && reqs[i].Default?
    ensures DefaultsIn(reqs[..i]) < DefaultsIn(reqs[..j])
    decreases j
  {
    var pre := reqs[..j][..j - 1];
    assert pre == reqs[..j - 1];
    if i < j - 1 {
      DefaultsGrow(reqs, i, j - 1);
    } else {
      assert reqs[..j][j - 1] == reqs[i];
    }
  }

  /** While the counter does not wrap, every default-constructed component in a
      run gets a name no other one in the run has. */
  lemma {:induction false} DefaultComponentsDistinct(count: nat, reqs: seq<Request>, i: nat, j: nat)
    requires count < CountLimit && count + |reqs| < CountLimit
    requires i < j < |reqs| && reqs[i].Default? && reqs[j].Default?
    ensures GetName(ConstructAll(count, reqs).0[i]) != GetName(ConstructAll(count, reqs).0[j])
  {
    ConstructAllNames(count, reqs, i);
    ConstructAllNames(count, reqs, j);
    DefaultsGrow(reqs, i, j);
    DefaultNamesDistinct(CounterAfter(count, reqs[..i]), CounterAfter(count, reqs[..j]));
  }
}

/** `ScriptComponent`: the script's file name in the same kind of buffer. */
module ScriptComponent {
  import opened CharBuffer

  datatype ScriptComponent = ScriptComponent(buffer: string)

  function GetFileName(c: ScriptComponent): string
  {
    CString(c.buffer)
  }

  /** The default constructor stores the empty name: an all-zero buffer. */
  function New(): (c: ScriptComponent)
    ensures GetFileName(c) == ""
    ensures c.buffer == Zeroed()
  {
    var c := ScriptComponent(Store(""));
    assert forall j :: 0 <= j < BufferSize ==> c.buffer[j] == NUL;
    c
  }

  /** `SetFileName` keeps at most 127 bytes of the name, so a file name
      that fits is read back unchanged, and reading back then storing again
      changes nothing. */
  function SetFileName(c: ScriptComponent, fileName: string): (r: ScriptComponent)
    ensures |r.buffer| == BufferSize && r.buffer[BufferSize - 1] == NUL
    ensures GetFileName(r) == CString(fileName)[..Min(CLength(fileName), BufferSize - 1)]
    ensures NUL !in fileName && |fileName| < BufferSize ==> GetFileName(r) == fileName
    ensures |GetFileName(r)| == Min(CLength(fileName), BufferSize - 1)
  {
    StoreKeepsShortStrings(fileName);
    ScriptComponent(Store(fileName))
  }

  /** Storing the file name read back changes nothing. */
  lemma SetFileNameIdempotent(c: ScriptComponent, fileName: string)
    ensures var r := SetFileName(c, fileName);
      SetFileName(r, GetFileName(r)) == r
  {
    StoreIdempotent(fileName);
  }
}
