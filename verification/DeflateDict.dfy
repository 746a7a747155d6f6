/**
  The string dictionary of the deflate matcher as a value: hash heads, chain links, and the
  invariant that every chain entry still reachable within the window has the key of its chain.
  It is kept by INSERT_STRING, by slide_hash and by reading more input.
 */
module DeflateDict {
  import opened Lz77

  /** A window index masked with w_mask; indices stay below twice the window size. */
  function Slot(w: nat, pos: nat): nat
    requires pos < 2 * w
  {
    if pos < w then pos else pos - w
  }

  lemma SlotIsRemainder(w: nat, pos: nat)
    requires pos < 2 * w
    ensures Slot(w, pos) == pos % w
  {
    if pos >= w {
      assert pos / w == 1 by { assert pos == w * 1 + (pos - w); }
    }
  }

  /** `keys` are the hash keys of all three-byte strings of the input read so far, of which `base` bytes have slid
      out of the window; `ins` are the absolute positions of the strings entered in the dictionary. */
  datatype Dict = Dict(w: nat, keys: seq<nat>, base: nat, ins: set<int>, head: seq<nat>, prev: seq<nat>)
  {
    predicate Shape() {
      w > MIN_MATCH && |prev| == w && forall p :: 0 <= p < |keys| ==> keys[p] < |head|
    }

    /** A head or link value is NIL or the window index of a string with key `k` that starts before `hi`. */
    predicate Entry(v: nat, k: nat, hi: int) {
      v == 0 || (base + v in ins && base + v < hi && base + v < |keys| && keys[base + v] == k)
    }

    /** Every string in the dictionary starts before `hi`. */
    predicate Strings(hi: int) {
      forall p :: p in ins ==> 0 <= p < hi && p < |keys| && p < base + 2 * w
    }

    /** Each head leads to a string with its key. */
    predicate Heads(hi: int) {
      forall k :: 0 <= k < |head| ==> Entry(head[k], k, hi)
    }

    /** The chain link stored for the string at absolute position `p`. */
    function LinkOf(p: int): nat
      requires Shape() && base <= p < base + 2 * w
    {
      prev[Slot(w, p - base)]
    }

    /** Each link whose slot has not been reused leads to a string before `lk` with the same key. */
    predicate Links(hi: int, lk: int)
      requires Shape() && Strings(hi)
    {
      forall p {:trigger LinkOf(p)} :: p in ins && base <= p && hi <= p + w ==> Entry(LinkOf(p), keys[p], lk)
    }

    /** The dictionary invariant. */
    predicate Ok(hi: int, lk: int) {
      Shape() && Strings(hi) && Heads(hi) && Links(hi, lk)
    }

    /** The effect of INSERT_STRING on the tables. */
    function Insert(str: nat): Dict
      requires Shape() && str < 2 * w && base + str < |keys|
    {
      var k := keys[base + str];
      this.(ins := ins + {base + str}, head := head[k := str], prev := prev[Slot(w, str) := head[k]])
    }

    /** The effect of slide_hash together with moving the window up by w bytes. */
    function Slide(): Dict {
      this.(base := base + w,
            head := seq(|head|, i requires 0 <= i < |head| => Lower(head[i])),
            prev := seq(|prev|, i requires 0 <= i < |prev| => Lower(prev[i])))
    }

    function Lower(m: nat): nat {
      if m >= w then m - w else 0
    }
  }

  lemma InsertKeeps(d: Dict, str: nat, hi: int)
    requires d.Shape() && d.Ok(hi, hi)
    requires str < 2 * d.w && d.base + str < |d.keys|
    requires d.base + str <= hi <= d.base + str + d.w
    ensures d.Insert(str).Ok(if hi == d.base + str then hi + 1 else hi, hi)
  {
    var e := d.Insert(str);
    var hi' := if hi == d.base + str then hi + 1 else hi;
    assert e.Strings(hi');
    assert e.Heads(hi') by {
      InsertKeepsHeads(d, str, hi);
    }
    assert e.Links(hi', hi) by {
      forall p | p in e.ins && e.base <= p && hi' <= p + e.w
        ensures e.Entry(e.LinkOf(p), e.keys[p], hi)
      {
        InsertKeepsLink(d, str, hi, p);
      }
    }
  }

  lemma InsertKeepsHeads(d: Dict, str: nat, hi: int)
    requires d.Shape() && d.Heads(hi)
    requires str < 2 * d.w && d.base + str < |d.keys| && d.base + str <= hi
    ensures d.Insert(str).Heads(if hi == d.base + str then hi + 1 else hi)
  {
    var e := d.Insert(str);
    var hi' := if hi == d.base + str then hi + 1 else hi;
    forall k | 0 <= k < |e.head|
      ensures e.Entry(e.head[k], k, hi')
    {
      assert d.Entry(d.head[k], k, hi);
    }
  }

  /** A new string reuses the slot of no string that is still within a window size of `hi`. */
  lemma InsertKeepsLink(d: Dict, str: nat, hi: int, p: int)
    requires d.Shape() && d.Ok(hi, hi)
    requires str < 2 * d.w && d.base + str < |d.keys|
    requires d.base + str <= hi <= d.base + str + d.w
    requires p in d.Insert(str).ins && d.base <= p < d.base + 2 * d.w && p < |d.keys|
    requires (if hi == d.base + str then hi + 1 else hi) <= p + d.w
    ensures d.Insert(str).Entry(d.Insert(str).LinkOf(p), d.keys[p], hi)
  {
    var k := d.keys[d.base + str];
    if p == d.base + str {
      assert d.Entry(d.head[k], k, hi);
    } else {
      assert Slot(d.w, p - d.base) != Slot(d.w, str);
      assert d.Entry(d.LinkOf(p), d.keys[p], hi);
    }
  }

  lemma SlideKeeps(d: Dict, hi: int)
    requires d.Ok(hi, hi)
    ensures d.Slide().Ok(hi, hi)
  {
    var e := d.Slide();
    assert e.Strings(hi);
    forall k | 0 <= k < |e.head|
      ensures e.Entry(e.head[k], k, hi)
    {
      assert d.Entry(d.head[k], k, hi);
    }
    forall p | p in e.ins && e.base <= p && hi <= p + e.w
      ensures e.Entry(e.LinkOf(p), e.keys[p], hi)
    {
      assert Slot(e.w, p - e.base) == Slot(d.w, p - d.base);
      assert d.Entry(d.LinkOf(p), d.keys[p], hi);
    }
  }

  /** More input changes no key of a string already entered. */
  lemma GrowKeeps(d: Dict, more: seq<nat>, hi: int, lk: int)
    requires d.Ok(hi, lk) && forall i :: 0 <= i < |more| ==> more[i] < |d.head|
    ensures d.(keys := d.keys + more).Ok(hi, lk)
  {
    var e := d.(keys := d.keys + more);
    assert e.Shape() && e.Strings(hi);
    forall k | 0 <= k < |e.head|
      ensures e.Entry(e.head[k], k, hi)
    {
      assert d.Entry(d.head[k], k, hi);
    }
    forall p | p in e.ins && e.base <= p && hi <= p + e.w
      ensures e.Entry(e.LinkOf(p), e.keys[p], lk)
    {
      assert d.Entry(d.LinkOf(p), d.keys[p], lk);
    }
  }

  /** Bounds may be relaxed as strstart moves on. */
  lemma AdvanceKeeps(d: Dict, hi: int, lk: int, hi': int)
    requires d.Ok(hi, lk) && hi <= hi' && lk <= hi'
    ensures d.Ok(hi', hi')
  {
    forall k | 0 <= k < |d.head|
      ensures d.Entry(d.head[k], k, hi')
    {
      assert d.Entry(d.head[k], k, hi);
    }
    forall p | p in d.ins && d.base <= p && hi' <= p + d.w
      ensures d.Entry(d.LinkOf(p), d.keys[p], hi')
    {
      assert d.Entry(d.LinkOf(p), d.keys[p], lk);
    }
  }

  /** The head of a chain, and the link of an entry whose slot is still its own, are entries of that chain. */
  lemma HeadIsEntry(d: Dict, k: nat, hi: int, lk: int)
    requires d.Ok(hi, lk) && k < |d.head|
    ensures d.Entry(d.head[k], k, hi)
  {
  }

  lemma LinkIsEntry(d: Dict, p: int, hi: int, lk: int)
    requires d.Shape() && d.Ok(hi, lk)
    requires p in d.ins && d.base <= p && hi <= p + d.w
    ensures p < d.base + 2 * d.w && p < |d.keys|
    ensures d.Entry(d.LinkOf(p), d.keys[p], lk)
  {
    assert d.Entry(d.LinkOf(p), d.keys[p], lk);
  }
}
