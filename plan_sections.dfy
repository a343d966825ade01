/** The plan document: the full generated text and an ordered mapping from
    section title to section body. The mapping is a JavaScript object whose
    keys are iterated in insertion order; it is modelled as an association
    list whose order is that insertion order. */
module PlanSections {
  import opened Common

  datatype Section = Section(title: string, body: string)

  /** A JavaScript object from section title to body, in key order. */
  type Sections = seq<Section>

  /** `{ fullText, sections }` as returned by the plan parser and held by the UI. */
  datatype PlanDocument = PlanDocument(fullText: string, sections: Sections)

  /** `Object.keys(sections)`: the titles, in order. */
  function Keys(ss: Sections): (r: seq<string>)
    ensures |r| == |ss|
    ensures forall i {:trigger r[i]} :: 0 <= i < |ss| ==> r[i] == ss[i].title
  {
    if ss == [] then [] else [ss[0].title] + Keys(ss[1..])
  }

  /** No title is a key twice, as in any JavaScript object. */
  predicate DistinctKeys(ss: Sections) {
    forall i, j :: 0 <= i < j < |ss| ==> ss[i].title != ss[j].title
  }

  /** Entry `i` is the first one titled `key`. */
  predicate FirstKeyAt(ss: Sections, key: string, i: nat) {
    && i < |ss|
    && ss[i].title == key
    && forall j :: 0 <= j < i ==> ss[j].title != key
  }

  /** `sections[key]`, `None` standing for `undefined`: the body of the first
      entry with that title, if there is one. */
  function Lookup(ss: Sections, key: string): (r: Option<string>)
    ensures r.None? <==> key !in Keys(ss)
    ensures forall i: nat :: FirstKeyAt(ss, key, i) ==> r == Some(ss[i].body)
  {
    if ss == [] then None
    else if ss[0].title == key then Some(ss[0].body)
    else
      assert forall i: nat | 0 < i && FirstKeyAt(ss, key, i) :: FirstKeyAt(ss[1..], key, i - 1);
      Lookup(ss[1..], key)
  }

  /** `sections[key] = value` (and `{ ...sections, [key]: value }`): an
      existing key keeps its position and takes the new value; a new key is
      added at the end. Every other key keeps its value. */
  function Put(ss: Sections, key: string, value: string): (r: Sections)
    ensures Lookup(r, key) == Some(value)
    ensures forall k :: k != key ==> Lookup(r, k) == Lookup(ss, k)
  {
    if ss == [] then [Section(key, value)]
    else if ss[0].title == key then [Section(key, value)] + ss[1..]
    else
      [ss[0]] + Put(ss[1..], key, value)
  }

  /** An existing key keeps its position; a new key is added at the end. */
  lemma {:induction false} PutKeys(ss: Sections, key: string, value: string)
    ensures Keys(Put(ss, key, value)) == if key in Keys(ss) then Keys(ss) else Keys(ss) + [key]
  {
    if ss != [] && ss[0].title != key {
      PutKeys(ss[1..], key, value);
      assert Keys(ss) == [ss[0].title] + Keys(ss[1..]);
    }
  }

  /** Storing a key never makes a key repeat. */
  lemma PutKeepsDistinct(ss: Sections, key: string, value: string)
    requires DistinctKeys(ss)
    ensures DistinctKeys(Put(ss, key, value))
  {
    var r := Put(ss, key, value);
    PutKeys(ss, key, value);
    forall i, j | 0 <= i < j < |r| ensures r[i].title != r[j].title {
      assert r[i].title == Keys(r)[i] && r[j].title == Keys(r)[j];
      if j < |ss| {
        assert Keys(r)[i] == Keys(ss)[i] && Keys(r)[j] == Keys(ss)[j];
      } else {
        assert Keys(r)[j] == key && Keys(r)[i] == Keys(ss)[i];
      }
    }
  }

  /** Storing a key twice is storing the second value once. */
  lemma {:induction false} PutPut(ss: Sections, key: string, a: string, b: string)
    ensures Put(Put(ss, key, a), key, b) == Put(ss, key, b)
  {
    if ss != [] && ss[0].title != key {
      PutPut(ss[1..], key, a, b);
    }
  }

  /** Two different keys that are both present can be stored in either order. */
  lemma {:induction false} PutSwap(ss: Sections, k1: string, a: string, k2: string, b: string)
    requires k1 != k2 && k1 in Keys(ss) && k2 in Keys(ss)
    ensures Put(Put(ss, k1, a), k2, b) == Put(Put(ss, k2, b), k1, a)
  {
    if ss[0].title != k1 && ss[0].title != k2 {
      PutSwap(ss[1..], k1, a, k2, b);
    } else if ss[0].title == k1 {
      assert k2 in Keys(ss[1..]);
    } else {
      assert k1 in Keys(ss[1..]);
    }
  }
}
