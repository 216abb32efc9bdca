/**
 * The web front end's own logic: the bounded least-recently-used cache of
 * generated images, how a route consults it, the boolean query-parameter
 * parser, and the file name of a downloaded brand kit.
 */
module App {
  import opened Wrappers
  import opened Strings
  import ColorExtractor

  // ---------------------------------------------------------------- image cache

  type Bytes = seq<bv8>

  /** `_CACHE_MAX_SIZE`. */
  const CacheMaxSize: nat := 50

  /** The keys of `s` other than `x`, in order. */
  function Without(s: seq<string>, x: string): (r: seq<string>)
    ensures forall y :: y in r <==> y in s && y != x
    ensures x !in s ==> r == s
  {
    if s == [] then []
    else
      var rest := Without(s[1..], x);
      assert forall y :: y in s <==> y == s[0] || y in s[1..];
      if s[0] == x then rest else [s[0]] + rest
  }

  /** Removing a key from a list without repetitions leaves one without
      repetitions, one shorter when the key was there. */
  lemma {:induction false} WithoutDistinct(s: seq<string>, x: string)
    requires ColorExtractor.Distinct(s)
    ensures ColorExtractor.Distinct(Without(s, x))
    ensures x in s ==> |Without(s, x)| == |s| - 1
    decreases |s|
  {
    if s != [] {
      var t := s[1..];
      assert ColorExtractor.Distinct(t) by {
        forall i, j | 0 <= i < j < |t| ensures t[i] != t[j] {
          assert t[i] == s[i + 1] && t[j] == s[j + 1];
        }
      }
      WithoutDistinct(t, x);
      var rest := Without(t, x);
      if s[0] != x {
        assert s[0] !in t;
        var r := [s[0]] + rest;
        forall i, j | 0 <= i < j < |r| ensures r[i] != r[j] {
          if i > 0 {
            assert r[i] == rest[i - 1] && r[j] == rest[j - 1];
          } else {
            assert r[j] == rest[j - 1] && r[j] in t;
          }
        }
        if x in s {
          assert x in t;
        }
      } else {
        assert x !in t;
      }
    }
  }

  /** The most recent `CacheMaxSize` keys of `s`: what evicting from the
      least-recent end leaves. */
  function Recent(s: seq<string>): (r: seq<string>)
    ensures |r| <= CacheMaxSize
  {
    if |s| <= CacheMaxSize then s else s[|s| - CacheMaxSize..]
  }

  /** The key order after `key` is stored or read: `key` moved to (or put
      at) the most-recent end. */
  function Touched(order: seq<string>, key: string): seq<string> {
    Without(order, key) + [key]
  }

  /** Touching a key keeps the keys free of repetitions, and adds one key
      exactly when it was absent. */
  lemma TouchedDistinct(order: seq<string>, key: string)
    requires ColorExtractor.Distinct(order)
    ensures ColorExtractor.Distinct(Touched(order, key))
    ensures |Touched(order, key)| == if key in order then |order| else |order| + 1
  {
    WithoutDistinct(order, key);
    var w := Without(order, key);
    var t := Touched(order, key);
    forall i, j | 0 <= i < j < |t| ensures t[i] != t[j] {
      assert t[i] == w[i] && w[i] in w;
    }
  }

  /** `_image_cache`: an ordered dictionary from cache keys to images. The
      order runs from the least to the most recently used key. */
  class ImageCache {
    var order: seq<string>
    var store: map<string, Bytes>

    /** At most `CacheMaxSize` keys, each once, and the keys of the order are
        exactly those of the store. */
    ghost predicate Valid()
      reads this
    {
      |order| <= CacheMaxSize && ColorExtractor.Distinct(order) &&
      forall k :: k in store <==> k in order
    }

    /** The empty cache the module starts with. */
    constructor ()
      ensures Valid() && order == [] && store == map[]
    {
      order := [];
      store := map[];
    }

    /** `_get_cached`: a hit returns the image and makes its key the most
        recent; a miss returns None and changes nothing. */
    method Get(key: string) returns (r: Option<Bytes>)
      requires Valid()
      modifies this
      ensures Valid()
      ensures store == old(store)
      ensures old(key in store) ==> r == Some(old(store)[key]) && order == Touched(old(order), key)
      ensures old(key !in store) ==> r == None && order == old(order)
    {
      if key in store {
        TouchedDistinct(order, key);
        order := Touched(order, key);
        r := Some(store[key]);
      } else {
        r := None;
      }
    }

    /** `_set_cached`: store the image under `key`, make `key` the most recent,
        then evict least-recent keys while there are more than `CacheMaxSize`. */
    method Set(key: string, value: Bytes)
      requires Valid()
      modifies this
      ensures Valid()
      ensures order == Recent(Touched(old(order), key))
      ensures forall k :: k in store ==> store[k] == old(store)[key := value][k]
      ensures key in store && store[key] == value
    {
      TouchedDistinct(order, key);
      store := store[key := value];
      order := Touched(order, key);
      ghost var full := order;
      ghost var stored := store;
      while |order| > CacheMaxSize
        invariant |order| <= |full| && order == full[|full| - |order|..]
        invariant |full| > CacheMaxSize ==> |order| >= CacheMaxSize
        invariant |full| <= CacheMaxSize ==> order == full
        invariant ColorExtractor.Distinct(order)
        invariant forall k :: k in store <==> k in order
        invariant forall k :: k in store ==> store[k] == stored[k]
        decreases |order|
      {
        var oldest := order[0];
        DropOldest(order, store);
        order := order[1..];
        store := store - {oldest};
      }
      assert order[|order| - 1] == full[|full| - 1];
    }
  }

  /** Evicting the least recent key keeps the order free of repetitions and
      in step with the keys of the store. */
  lemma DropOldest(order: seq<string>, store: map<string, Bytes>)
    requires order != [] && ColorExtractor.Distinct(order)
    requires forall k :: k in store <==> k in order
    ensures ColorExtractor.Distinct(order[1..])
    ensures forall k :: k in store - {order[0]} <==> k in order[1..]
  {
    var rest := order[1..];
    assert forall j :: 0 <= j < |rest| ==> rest[j] == order[j + 1];
    assert forall k :: k in order <==> k == order[0] || k in rest;
  }

  /** Storing never evicts the key just stored: it is the most recent. */
  lemma StoredKeyIsMostRecent(order: seq<string>, key: string)
    ensures var r := Recent(Touched(order, key));
      r != [] && r[|r| - 1] == key
  {
  }

  /** Storing under a key already present evicts nothing: the same keys
      remain, in the same number. */
  lemma UpdateEvictsNothing(order: seq<string>, key: string)
    requires |order| <= CacheMaxSize && ColorExtractor.Distinct(order) && key in order
    ensures var r := Recent(Touched(order, key));
      |r| == |order| && forall k :: k in r <==> k in order
  {
    TouchedDistinct(order, key);
  }

  /** Storing a new key in a full cache evicts exactly the least recent key. */
  lemma InsertIntoFullEvictsOldest(order: seq<string>, key: string)
    requires |order| == CacheMaxSize && ColorExtractor.Distinct(order) && key !in order
    ensures Recent(Touched(order, key)) == order[1..] + [key]
  {
    TouchedDistinct(order, key);
  }

  /** Removing a key from a list without repetitions cuts it out at its
      position: the keys before and after it keep their relative order. */
  lemma {:induction false} WithoutAt(s: seq<string>, x: string, k: nat)
    requires ColorExtractor.Distinct(s) && k < |s| && s[k] == x
    ensures Without(s, x) == s[..k] + s[k + 1..]
    decreases k
  {
    var t := s[1..];
    assert ColorExtractor.Distinct(t) by {
      forall i, j | 0 <= i < j < |t| ensures t[i] != t[j] {
        assert t[i] == s[i + 1] && t[j] == s[j + 1];
      }
    }
    if k == 0 {
      assert x !in t;
    } else {
      WithoutAt(t, x, k - 1);
      assert s[0] != x;
      assert s[..k] == [s[0]] + t[..k - 1];
      assert s[k + 1..] == t[k..];
    }
  }

  /** A route that serves a generated image: it answers from the cache only
      when the cached image is non-empty (`if cached:`), and otherwise serves
      and caches the freshly rendered image. */
  method ServeCached(cache: ImageCache, key: string, rendered: Bytes) returns (image: Bytes)
    requires cache.Valid()
    modifies cache
    ensures cache.Valid()
    ensures old(key in cache.store) && old(cache.store[key]) != [] ==>
      image == old(cache.store[key]) && cache.store == old(cache.store) &&
      cache.order == Touched(old(cache.order), key)
    ensures !(old(key in cache.store) && old(cache.store[key]) != []) ==>
      image == rendered && key in cache.store && cache.store[key] == rendered &&
      cache.order == Recent(Touched(old(cache.order), key)) &&
      forall k :: k in cache.store ==> cache.store[k] == old(cache.store)[key := rendered][k]
  {
    ghost var before := cache.order;
    var cached := cache.Get(key);
    if cached.Some? && cached.value != [] {
      return cached.value;
    }
    TouchedTwice(before, key);
    cache.Set(key, rendered);
    image := rendered;
  }

  /** Removing a key from two lists one after the other is removing it from
      their concatenation. */
  lemma {:induction false} WithoutAppend(a: seq<string>, b: seq<string>, x: string)
    ensures Without(a + b, x) == Without(a, x) + Without(b, x)
    decreases |a|
  {
    if a != [] {
      assert (a + b)[1..] == a[1..] + b;
      WithoutAppend(a[1..], b, x);
    } else {
      assert a + b == b;
    }
  }

  /** Touching a key a second time changes nothing. */
  lemma TouchedTwice(order: seq<string>, key: string)
    ensures Touched(Touched(order, key), key) == Touched(order, key)
  {
    var w := Without(order, key);
    WithoutAppend(w, [key], key);
    assert Without([key], key) == [];
  }

  // ---------------------------------------------------------------- parse_bool

  /** The values a query parameter can arrive as: a bool, a string, or any
      other value, of which only its truthiness matters. */
  datatype Param = BoolParam(b: bool) | StrParam(s: string) | OtherParam(truthy: bool)

  /** The strings parse_bool reads as true, once lower-cased. */
  const TrueWords: seq<string> := ["true", "1", "yes"]

  /** parse_bool. */
  function ParseBool(v: Param): bool {
    match v
    case BoolParam(b) => b
    case StrParam(s) => Lower(s) in TrueWords
    case OtherParam(t) => t
  }

  /** Strings are read without regard to case, and a bool read back through
      its own lower-cased spelling is unchanged. */
  lemma ParseBoolCaseInsensitive(s: string)
    ensures ParseBool(StrParam(s)) == ParseBool(StrParam(Lower(s)))
  {
    LowerIdempotent(s);
  }

  /** Parsing a bool, or the spelling `true`/`false`, gives that bool. */
  lemma ParseBoolRoundTrip(b: bool)
    ensures ParseBool(BoolParam(b)) == b
    ensures ParseBool(StrParam(if b then "true" else "false")) == b
  {
    assert Lower("true") == "true";
    assert Lower("false") == "false";
  }

  // ---------------------------------------------------------------- download file name

  /** `safe_name` in download_zip: the lower-cased name with every character
      that is not a letter or digit replaced by `-`. */
  function SafeName(name: string): string {
    var lower := Lower(name);
    seq(|lower|, i requires 0 <= i < |lower| => if IsAlnum(lower[i]) then lower[i] else '-')
  }

  /** The attachment's file name. */
  function DownloadFilename(name: string): string {
    SafeName(name) + "-brand-kit.zip"
  }

  /** The safe name keeps the name's length, and each character is the
      lower-cased letter or digit at that position, or `-`. */
  lemma SafeNameShape(name: string)
    ensures |SafeName(name)| == |name|
    ensures forall i :: 0 <= i < |name| ==>
      SafeName(name)[i] == (if IsAlnum(name[i]) then ToLower(name[i]) else '-')
    ensures forall i :: 0 <= i < |name| ==>
      IsLower(SafeName(name)[i]) || IsDigit(SafeName(name)[i]) || SafeName(name)[i] == '-'
  {
  }

  /** Sanitising a safe name changes nothing. */
  lemma SafeNameIdempotent(name: string)
    ensures SafeName(SafeName(name)) == SafeName(name)
  {
    SafeNameShape(name);
    SafeNameShape(SafeName(name));
  }
}
