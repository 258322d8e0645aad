/**
 * The server's case-insensitive, multi-valued header map (`MuHeaders`).
 *
 * Headers live in one map from a name to the ordered list of its values.
 * Every single-value mutator and every reader folds the name to lower case
 * before touching the map, so the map's keys are normally all lower case;
 * the two `Iterable` mutators are the exception and store the name exactly
 * as given (see `AddAll`).
 */
module Headers {
  import opened Wrappers
  import opened Ascii

  datatype MuHeaders = MuHeaders(all: map<string, seq<string>>)

  /** The request headers that announce a body. */
  const TRANSFER_ENCODING: string := "transfer-encoding"
  const CONTENT_LENGTH: string := "content-length"

  /** A freshly constructed, empty header map. */
  function Empty(): (h: MuHeaders)
    ensures IsEmpty(h) && Valid(h)
  {
    MuHeaders(map[])
  }

  /** Every key is in folded form, so every entry is reachable by name. */
  predicate Valid(h: MuHeaders) {
    forall k :: k in h.all ==> IsLower(k)
  }

  /** Two names denote the same header when they agree after folding. */
  predicate SameName(a: string, b: string) {
    ToLower(a) == ToLower(b)
  }

  /** The raw map entry for exactly the key `k`, without folding. */
  function Lookup(h: MuHeaders, k: string): Option<seq<string>> {
    if k in h.all then Some(h.all[k]) else None
  }

  // ----- readers ------------------------------------------------------------

  function GetAll(h: MuHeaders, name: string): seq<string> {
    Lookup(h, ToLower(name)).GetOr([])
  }

  function Get(h: MuHeaders, name: string, default: string): string {
    var matches := GetAll(h, name);
    if |matches| == 0 then default else matches[0]
  }

  /** `get(name)`: the first value, with the empty string as the default. */
  function GetOrEmpty(h: MuHeaders, name: string): string {
    Get(h, name, "")
  }

  function Contains(h: MuHeaders, name: string): bool {
    ToLower(name) in h.all
  }

  function Size(h: MuHeaders): nat {
    |h.all|
  }

  function IsEmpty(h: MuHeaders): bool {
    |h.all| == 0
  }

  /**
   * `getInt(name, default)`: the first value read as a 32-bit decimal, or the
   * default when there is no value or it is not a numeral in range.
   */
  function GetInt(h: MuHeaders, name: string, default: int): (r: int)
    ensures !Contains(h, name) ==> r == default
    ensures ParseInt(GetOrEmpty(h, name)).None? ==> r == default
    ensures ParseInt(GetOrEmpty(h, name)).Some? ==> INT_MIN <= r <= INT_MAX
    ensures var v := GetOrEmpty(h, name);
            r == if IsNumeral(v) && INT_MIN <= NumeralValue(v) <= INT_MAX then NumeralValue(v) else default
  {
    ParseInt(Get(h, name, "")).GetOr(default)
  }

  /** `getLong(name, default)`: as `GetInt`, over the 64-bit range. */
  function GetLong(h: MuHeaders, name: string, default: int): (r: int)
    ensures !Contains(h, name) ==> r == default
    ensures ParseLong(GetOrEmpty(h, name)).None? ==> r == default
    ensures ParseLong(GetOrEmpty(h, name)).Some? ==> LONG_MIN <= r <= LONG_MAX
    ensures var v := GetOrEmpty(h, name);
            r == if IsNumeral(v) && LONG_MIN <= NumeralValue(v) <= LONG_MAX then NumeralValue(v) else default
  {
    ParseLong(Get(h, name, "")).GetOr(default)
  }

  /**
   * `hasBody()`: a body follows when a transfer-encoding is announced or the
   * content-length reads as a positive 32-bit number.
   */
  function HasBody(h: MuHeaders): bool {
    Contains(h, TRANSFER_ENCODING) || GetInt(h, CONTENT_LENGTH, -1) > 0
  }

  /**
   * What `HasBody` means on the stored map: the transfer-encoding key is
   * present, or the first content-length value is a numeral whose value is
   * positive and fits in 32 bits (a larger one falls back to -1).
   */
  lemma HasBodyMeaning(h: MuHeaders)
    ensures HasBody(h) <==>
            || TRANSFER_ENCODING in h.all
            || (&& CONTENT_LENGTH in h.all
                && |h.all[CONTENT_LENGTH]| > 0
                && IsNumeral(h.all[CONTENT_LENGTH][0])
                && 0 < NumeralValue(h.all[CONTENT_LENGTH][0]) <= INT_MAX)
  {
    ToLowerOfLower(TRANSFER_ENCODING);
    ToLowerOfLower(CONTENT_LENGTH);
    var s := GetOrEmpty(h, CONTENT_LENGTH);
    if CONTENT_LENGTH in h.all && |h.all[CONTENT_LENGTH]| > 0 {
      assert s == h.all[CONTENT_LENGTH][0];
    } else {
      assert s == "";
    }
  }

  // ----- single-value mutators ----------------------------------------------

  /**
   * `set(name, value)`: the folded name now holds exactly `[value]`, under
   * every spelling of the name; no other key changes.
   */
  function Set(h: MuHeaders, name: string, value: string): (r: MuHeaders)
    ensures forall n :: SameName(n, name) ==> GetAll(r, n) == [value] && Contains(r, n)
    ensures forall n, d :: SameName(n, name) ==> Get(r, n, d) == value
    ensures forall k :: k != ToLower(name) ==> Lookup(r, k) == Lookup(h, k)
    ensures Size(r) == if Contains(h, name) then Size(h) else Size(h) + 1
    ensures Valid(h) ==> Valid(r)
  {
    MuHeaders(h.all[ToLower(name) := [value]])
  }

  /**
   * `add(name, value)`: `value` goes after the values already held under the
   * folded name, keeping their order; no other key changes.
   */
  function Add(h: MuHeaders, name: string, value: string): (r: MuHeaders)
    ensures forall n :: SameName(n, name) ==> GetAll(r, n) == GetAll(h, n) + [value] && Contains(r, n)
    ensures forall k :: k != ToLower(name) ==> Lookup(r, k) == Lookup(h, k)
    ensures Size(r) == if Contains(h, name) then Size(h) else Size(h) + 1
    ensures Valid(h) ==> Valid(r)
  {
    var key := ToLower(name);
    if key in h.all then MuHeaders(h.all[key := h.all[key] + [value]])
    else ToLowerIdempotent(name); Set(h, key, value)
  }

  /** `remove(name)`: the name is gone under every spelling; nothing else changes. */
  function Remove(h: MuHeaders, name: string): (r: MuHeaders)
    ensures forall n :: SameName(n, name) ==> !Contains(r, n) && GetAll(r, n) == []
    ensures Lookup(r, ToLower(name)) == None
    ensures forall n, d :: SameName(n, name) ==> Get(r, n, d) == d
    ensures forall k :: k != ToLower(name) ==> Lookup(r, k) == Lookup(h, k)
    ensures Size(r) == if Contains(h, name) then Size(h) - 1 else Size(h)
    ensures Valid(h) ==> Valid(r)
  {
    MuHeaders(h.all - {ToLower(name)})
  }

  /** `clear()`: no header remains. */
  function Clear(h: MuHeaders): (r: MuHeaders)
    ensures IsEmpty(r) && Size(r) == 0
    ensures forall n :: !Contains(r, n) && GetAll(r, n) == []
  {
    MuHeaders(map[])
  }

  // ----- the Iterable mutators ----------------------------------------------

  /**
   * `add(name, values)` as written: the values are appended, in order, to the
   * list under `name` spelled exactly as given (not folded), and that key is
   * created even when `values` is empty.
   */
  function AddAll(h: MuHeaders, name: string, values: seq<string>): (r: MuHeaders)
    ensures Lookup(r, name) == Some(Lookup(h, name).GetOr([]) + values)
    ensures forall k :: k != name ==> Lookup(r, k) == Lookup(h, k)
  {
    var cur := Lookup(h, name).GetOr([]);
    MuHeaders(h.all[name := cur + values])
  }

  /** `set(name, values)` as written: remove the folded name, then `AddAll`. */
  function SetAll(h: MuHeaders, name: string, values: seq<string>): (r: MuHeaders)
    ensures Lookup(r, name).Some?
    ensures name != ToLower(name) ==> Lookup(r, name) == Some(Lookup(h, name).GetOr([]) + values)
    ensures Lookup(r, ToLower(name)) == if name == ToLower(name) then Some(values) else None
    ensures forall k :: k != name && k != ToLower(name) ==> Lookup(r, k) == Lookup(h, k)
  {
    var removed := Remove(h, name);
    assert Lookup(removed, ToLower(name)) == None;
    assert [] + values == values;
    AddAll(removed, name, values)
  }

  /**
   * The corrected `add(name, values)`: the name is folded like everywhere
   * else, so the values are visible to every reader.
   */
  function AddAllFolded(h: MuHeaders, name: string, values: seq<string>): (r: MuHeaders)
    ensures forall n :: SameName(n, name) ==> GetAll(r, n) == GetAll(h, n) + values && Contains(r, n)
    ensures forall k :: k != ToLower(name) ==> Lookup(r, k) == Lookup(h, k)
    ensures Valid(h) ==> Valid(r)
  {
    AddAll(h, ToLower(name), values)
  }

  /** The corrected `set(name, values)`: exactly `values` under every spelling. */
  function SetAllFolded(h: MuHeaders, name: string, values: seq<string>): (r: MuHeaders)
    ensures forall n :: SameName(n, name) ==> GetAll(r, n) == values && Contains(r, n)
    ensures forall k :: k != ToLower(name) ==> Lookup(r, k) == Lookup(h, k)
    ensures Valid(h) ==> Valid(r)
  {
    AddAllFolded(Remove(h, name), name, values)
  }

  // ----- properties relating several operations -----------------------------

  /** On a name not yet present, `add` is `set`. */
  lemma AddAbsentIsSet(h: MuHeaders, name: string, value: string)
    requires !Contains(h, name)
    ensures Add(h, name, value) == Set(h, name, value)
  {
    ToLowerIdempotent(name);
  }

  /**
   * A number stored with `set` reads back through `getInt` under any spelling
   * of the name, and only when it fits in 32 bits; otherwise the default.
   */
  lemma GetIntAfterSet(h: MuHeaders, name: string, spelling: string, n: int, default: int)
    requires SameName(spelling, name)
    ensures GetInt(Set(h, name, ShowInt(n)), spelling, default) ==
            if INT_MIN <= n <= INT_MAX then n else default
  {
    var r := Set(h, name, ShowInt(n));
    assert GetOrEmpty(r, spelling) == ShowInt(n);
    ParseShowInt(n, INT_MIN, INT_MAX);
  }

  /** As `GetIntAfterSet`, for `getLong` and the 64-bit range. */
  lemma GetLongAfterSet(h: MuHeaders, name: string, spelling: string, n: int, default: int)
    requires SameName(spelling, name)
    ensures GetLong(Set(h, name, ShowInt(n)), spelling, default) ==
            if LONG_MIN <= n <= LONG_MAX then n else default
  {
    var r := Set(h, name, ShowInt(n));
    assert GetOrEmpty(r, spelling) == ShowInt(n);
    ParseShowInt(n, LONG_MIN, LONG_MAX);
  }

  /** An absent name reads as the default, because `""` is not a numeral. */
  lemma GetIntAbsent(h: MuHeaders, name: string, default: int)
    requires !Contains(h, name)
    ensures GetInt(h, name, default) == default && GetLong(h, name, default) == default
  {
  }

  /** Any radix-10 numeral is read, not just the printed form: a plus sign, leading zeros and `-0` included. */
  lemma GetIntReadsAnyNumeral(h: MuHeaders, name: string)
    ensures GetInt(Set(h, name, "+42"), name, 0) == 42
    ensures GetInt(Set(h, name, "007"), name, 0) == 7
    ensures GetLong(Set(h, name, "-0"), name, 5) == 0
    ensures GetInt(Set(h, name, "4x"), name, 5) == 5
  {
    PlusFortyTwo();
    DoubleZeroSeven();
    MinusZero();
    FourX();
    ToLowerIdempotent(name);
  }

  lemma PlusFortyTwo()
    ensures IsNumeral("+42") && NumeralValue("+42") == 42
  {
    assert "+42"[1..] == "42";
    assert "42"[..1] == "4";
    assert "4"[..0] == "";
  }

  lemma DoubleZeroSeven()
    ensures IsNumeral("007") && NumeralValue("007") == 7
  {
    assert "007"[..2] == "00";
    assert "00"[..1] == "0";
    assert "0"[..0] == "";
  }

  lemma MinusZero()
    ensures IsNumeral("-0") && NumeralValue("-0") == 0
  {
    assert "-0"[1..] == "0";
    assert "0"[..0] == "";
  }

  lemma FourX()
    ensures !IsNumeral("4x")
  {
    assert !IsDigit("4x"[1]);
  }

  /**
   * With no transfer-encoding, a request announces a body exactly when its
   * content-length is positive and at most `Integer.MAX_VALUE`: a length of
   * 2^31 or more does not parse as an int and counts as no body.
   */
  lemma HasBodyByContentLength(h: MuHeaders, spelling: string, n: int)
    requires SameName(spelling, CONTENT_LENGTH)
    requires !Contains(h, TRANSFER_ENCODING)
    ensures HasBody(Set(h, spelling, ShowInt(n))) <==> 0 < n <= INT_MAX
  {
    ToLowerOfLower(TRANSFER_ENCODING);
    ToLowerOfLower(CONTENT_LENGTH);
    var r := Set(h, spelling, ShowInt(n));
    assert !Contains(r, TRANSFER_ENCODING);
    GetIntAfterSet(h, spelling, CONTENT_LENGTH, n, -1);
  }

  /** Any transfer-encoding value, under any spelling, announces a body. */
  lemma HasBodyByTransferEncoding(h: MuHeaders, spelling: string, value: string)
    requires SameName(spelling, TRANSFER_ENCODING)
    ensures HasBody(Set(h, spelling, value))
  {
    ToLowerOfLower(TRANSFER_ENCODING);
  }

  /** An empty header map announces no body. */
  lemma NoBodyWhenEmpty()
    ensures !HasBody(Empty())
  {
    GetIntAbsent(Empty(), CONTENT_LENGTH, -1);
  }

  /**
   * The `Iterable` mutators lose their values for any name with an upper-case
   * letter: on a map whose keys are folded, no reader sees what `AddAll`
   * stored, and the map stops being `Valid`.
   */
  lemma AddAllUnfoldedIsInvisible(h: MuHeaders, name: string, values: seq<string>)
    requires Valid(h)
    requires !IsLower(name)
    ensures forall n :: GetAll(AddAll(h, name, values), n) == GetAll(h, n)
    ensures forall n :: Contains(AddAll(h, name, values), n) == Contains(h, n)
    ensures !Valid(AddAll(h, name, values))
  {
    var r := AddAll(h, name, values);
    forall n ensures GetAll(r, n) == GetAll(h, n) && Contains(r, n) == Contains(h, n) {
      assert IsLower(ToLower(n));
      assert ToLower(n) != name;
    }
  }

  /** The concrete case: `set("Accept", ["text/html"])` and `get("Accept")` is `""`. */
  lemma SetAllAcceptIsLost()
    ensures GetOrEmpty(SetAll(Empty(), "Accept", ["text/html"]), "Accept") == ""
    ensures !Contains(SetAll(Empty(), "Accept", ["text/html"]), "accept")
  {
    assert !IsLower("Accept") by { assert 'A' <= "Accept"[0] <= 'Z'; }
    AddAllUnfoldedIsInvisible(Remove(Empty(), "Accept"), "Accept", ["text/html"]);
  }

  /** For a name already in folded form the quirk is invisible: both versions agree. */
  lemma AddAllFoldedNameAgrees(h: MuHeaders, name: string, values: seq<string>)
    requires IsLower(name)
    ensures AddAll(h, name, values) == AddAllFolded(h, name, values)
    ensures SetAll(h, name, values) == SetAllFolded(h, name, values)
  {
    ToLowerOfLower(name);
  }

  /** The corrected version reads back what it stored under every spelling. */
  lemma SetAllFoldedReadsBack(h: MuHeaders, name: string, spelling: string, values: seq<string>)
    requires SameName(spelling, name)
    requires |values| > 0
    ensures GetOrEmpty(SetAllFolded(h, name, values), spelling) == values[0]
    ensures GetAll(SetAllFolded(h, name, values), spelling) == values
  {
  }

  // ----- what the readers mean ------------------------------------------------

  /**
   * `getAll` does not see how the name is spelled, and on a folded map it
   * reads the list stored under the one key that names this header.
   */
  lemma GetAllIgnoresCase(h: MuHeaders, name: string, spelling: string)
    requires SameName(spelling, name)
    ensures GetAll(h, spelling) == GetAll(h, name)
    ensures Valid(h) ==> forall k :: k in h.all && SameName(k, name) ==> GetAll(h, name) == h.all[k]
    ensures Valid(h) && GetAll(h, name) != [] ==> exists k :: k in h.all && SameName(k, name)
  {
    if Valid(h) {
      forall k | k in h.all && SameName(k, name)
        ensures GetAll(h, name) == h.all[k]
      {
        ToLowerOfLower(k);
      }
      if GetAll(h, name) != [] {
        ToLowerIdempotent(name);
        assert ToLower(name) in h.all && SameName(ToLower(name), name);
      }
    }
  }

  /**
   * `contains` does not see how the name is spelled; a name with values is
   * contained; and on a folded map a name is contained exactly when some key
   * names the same header.
   */
  lemma ContainsIgnoresCase(h: MuHeaders, name: string, spelling: string)
    requires SameName(spelling, name)
    ensures Contains(h, spelling) == Contains(h, name)
    ensures GetAll(h, name) != [] ==> Contains(h, name)
    ensures Valid(h) ==> (Contains(h, name) <==> exists k :: k in h.all && SameName(k, name))
  {
    if Valid(h) {
      if Contains(h, name) {
        ToLowerIdempotent(name);
        assert SameName(ToLower(name), name);
      }
      forall k | k in h.all && SameName(k, name)
        ensures Contains(h, name)
      {
        ToLowerOfLower(k);
      }
    }
  }

  /**
   * `get(name, default)` reads the first value under any spelling, and the
   * default when there is none; adding a value later never changes it unless
   * there was no value yet.
   */
  lemma GetKeepsFirstValue(h: MuHeaders, name: string, spelling: string, v: string, default: string)
    requires SameName(spelling, name)
    ensures Get(h, spelling, default) == if GetAll(h, name) == [] then default else GetAll(h, name)[0]
    ensures Get(Add(h, name, v), spelling, default) == if GetAll(h, name) == [] then v else Get(h, name, default)
  {
    GetAllIgnoresCase(h, name, spelling);
  }

  /** `get(name)` reads `""` for an absent name, and the first value otherwise. */
  lemma GetOrEmptyReadsFirst(h: MuHeaders, name: string, spelling: string, v: string)
    requires SameName(spelling, name)
    ensures !Contains(h, name) ==> GetOrEmpty(h, name) == ""
    ensures GetAll(h, name) != [] ==> GetOrEmpty(h, spelling) == GetAll(h, name)[0]
    ensures GetOrEmpty(Set(h, name, v), spelling) == v
    ensures GetOrEmpty(Remove(h, name), spelling) == ""
  {
    GetAllIgnoresCase(h, name, spelling);
  }

  /** An empty map contains no name; on a folded map that is exactly what empty means. */
  lemma EmptyMeansNoName(h: MuHeaders)
    ensures IsEmpty(h) <==> Size(h) == 0
    ensures IsEmpty(h) ==> forall n :: !Contains(h, n)
    ensures Valid(h) ==> (IsEmpty(h) <==> forall n :: !Contains(h, n))
  {
    if Valid(h) && !IsEmpty(h) {
      var k :| k in h.all;
      ToLowerOfLower(k);
      assert Contains(h, k);
    }
  }

  /** `set(name, value)` for each name in turn. */
  function SetEach(h: MuHeaders, names: seq<string>, value: string): MuHeaders
    decreases |names|
  {
    if |names| == 0 then h else SetEach(Set(h, names[0], value), names[1..], value)
  }

  function Folded(names: seq<string>): set<string> {
    set n | n in names :: ToLower(n)
  }

  lemma {:induction false} SetEachKeys(h: MuHeaders, names: seq<string>, value: string)
    ensures SetEach(h, names, value).all.Keys == h.all.Keys + Folded(names)
    decreases |names|
  {
    if |names| > 0 {
      SetEachKeys(Set(h, names[0], value), names[1..], value);
      assert Folded(names) == {ToLower(names[0])} + Folded(names[1..]) by {
        assert forall n :: n in names <==> n == names[0] || n in names[1..];
      }
    }
  }

  /** `size()` counts headers, not spellings: setting a list of names gives one entry per folded name. */
  lemma SizeCountsDistinctNames(names: seq<string>, value: string)
    ensures Size(SetEach(Empty(), names, value)) == |Folded(names)|
  {
    SetEachKeys(Empty(), names, value);
    var r := SetEach(Empty(), names, value);
    assert r.all.Keys == Folded(names);
    assert |r.all| == |r.all.Keys|;
  }
}
