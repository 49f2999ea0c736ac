/** The current SRI: `compareSRI`, `mergeRecSRI` and `addModifyKeyword`. */
module SriMerge {

  /** The content of a CORBA Any, compared as ossie::compare_anys compares two of one type. */
  datatype Any = Any(typeName: string, content: string)

  datatype Keyword = Keyword(id: string, value: Any)

  datatype StreamSRI = StreamSRI(
    hversion: int, xstart: real, xdelta: real, xunits: int, subsize: int,
    ystart: real, ydelta: real, yunits: int, mode: int, streamID: string, blocking: bool,
    keywords: seq<Keyword>)

  // ---- specification ----

  /** What compareSRI looks at: neither the keywords' ids, nor yunits, nor blocking. */
  predicate SameSRI(a: StreamSRI, b: StreamSRI) {
    && a.hversion == b.hversion && a.xstart == b.xstart && a.xdelta == b.xdelta && a.xunits == b.xunits
    && a.subsize == b.subsize && a.ystart == b.ystart && a.ydelta == b.ydelta && a.mode == b.mode
    && a.streamID == b.streamID
    && |a.keywords| == |b.keywords|
    && forall i :: 0 <= i < |a.keywords| ==> a.keywords[i].value == b.keywords[i].value
  }

  predicate HasId(ks: seq<Keyword>, id: string) { exists i :: 0 <= i < |ks| && ks[i].id == id }

  predicate UniqueIds(ks: seq<Keyword>) { forall i, j :: 0 <= i < j < |ks| ==> ks[i].id != ks[j].id }

  predicate SameIds(a: seq<Keyword>, b: seq<Keyword>) {
    forall i :: 0 <= i < |a| && i < |b| ==> a[i].id == b[i].id
  }

  /** A stored keyword after the received ones have been gone through in order. */
  function Overridden(k: Keyword, rec: seq<Keyword>): Keyword {
    if rec == [] then k
    else if rec[|rec| - 1].id == k.id then k.(value := rec[|rec| - 1].value)
    else Overridden(k, rec[..|rec| - 1])
  }

  function OverrideAll(ks: seq<Keyword>, rec: seq<Keyword>): seq<Keyword> {
    seq(|ks|, j requires 0 <= j < |ks| => Overridden(ks[j], rec))
  }

  /** The received keywords with an id that was not stored when the merge began, in received order. */
  function NewKeywords(ks: seq<Keyword>, rec: seq<Keyword>): seq<Keyword> {
    if rec == [] then []
    else
      var last := rec[|rec| - 1];
      NewKeywords(ks, rec[..|rec| - 1]) + if HasId(ks, last.id) then [] else [last]
  }

  function MergedKeywords(ks: seq<Keyword>, rec: seq<Keyword>): seq<Keyword> {
    OverrideAll(ks, rec) + NewKeywords(ks, rec)
  }

  /** The SRI after a merge that took the branch; subsize and blocking are never copied. */
  function Merged(cur: StreamSRI, rec: StreamSRI): StreamSRI {
    cur.(xdelta := rec.xdelta, streamID := rec.streamID, hversion := rec.hversion, xstart := rec.xstart,
         xunits := rec.xunits, ystart := rec.ystart, ydelta := rec.ydelta, yunits := rec.yunits,
         mode := rec.mode, keywords := MergedKeywords(cur.keywords, rec.keywords))
  }

  /** addModifyKeyword: the first keyword with the id gets the value, or a new one goes to the end. */
  function SetKeyword(ks: seq<Keyword>, id: string, value: Any, addOnly: bool): seq<Keyword> {
    if addOnly || !HasId(ks, id) then ks + [Keyword(id, value)]
    else if ks[0].id == id then [ks[0].(value := value)] + ks[1..]
    else [ks[0]] + SetKeyword(ks[1..], id, value, addOnly)
  }

  // ---- the code ----

  class SriHolder {
    var currSRI: StreamSRI
    var pushedSRI: seq<StreamSRI>

    constructor (sri: StreamSRI)
      ensures currSRI == sri && pushedSRI == []
    {
      currSRI, pushedSRI := sri, [];
    }

    static method CompareSRI(a: StreamSRI, b: StreamSRI) returns (same: bool)
      ensures same <==> SameSRI(a, b)
    {
      if !(a.hversion == b.hversion && a.xstart == b.xstart && a.xdelta == b.xdelta && a.xunits == b.xunits &&
           a.subsize == b.subsize && a.ystart == b.ystart && a.ydelta == b.ydelta && a.mode == b.mode &&
           a.streamID == b.streamID) {
        return false;
      }
      if |a.keywords| != |b.keywords| {
        return false;
      }
      var i := 0;
      while i < |a.keywords|
        invariant 0 <= i <= |a.keywords|
        invariant forall k :: 0 <= k < i ==> a.keywords[k].value == b.keywords[k].value
      {
        if a.keywords[i].value != b.keywords[i].value {
          return false;
        }
        i := i + 1;
      }
      return true;
    }

    /** The inner loop: one received keyword against the keywords stored at the start. */
    method MergeOne(k: Keyword, currSize: nat) returns (foundID: bool)
      requires currSize <= |currSRI.keywords|
      modifies `currSRI
      ensures foundID == HasId(old(currSRI.keywords)[..currSize], k.id)
      ensures currSRI == old(currSRI).(keywords := currSRI.keywords)
      ensures currSRI.keywords ==
              OverrideAll(old(currSRI.keywords)[..currSize], [k]) + old(currSRI.keywords)[currSize..]
    {
      hide HasId, Overridden;
      ghost var ks := currSRI.keywords;
      NoneHere(k.id);
      foundID := false;
      var j := 0;
      while j < currSize
        invariant 0 <= j <= currSize && |currSRI.keywords| == |ks|
        invariant currSRI == old(currSRI).(keywords := currSRI.keywords)
        invariant foundID == HasId(ks[..j], k.id)
        invariant forall i :: 0 <= i < j ==> currSRI.keywords[i] == Overridden(ks[i], [k])
        invariant currSRI.keywords[j..] == ks[j..]
      {
        assert currSRI.keywords[j] == currSRI.keywords[j..][0] == ks[j];
        OneMoreKeyword(ks, j, k.id);
        OverriddenByOne(ks[j], k);
        if k.id == currSRI.keywords[j].id {
          foundID := true;
          if k.value != currSRI.keywords[j].value {
            currSRI := currSRI.(keywords := currSRI.keywords[j := currSRI.keywords[j].(value := k.value)]);
          }
        }
        assert currSRI.keywords[j + 1..] == ks[j..][1..];
        j := j + 1;
      }
      assert currSRI.keywords == currSRI.keywords[..currSize] + currSRI.keywords[currSize..];
      assert currSRI.keywords[..currSize] == OverrideAll(ks[..currSize], [k]);
    }

    method MergeRecSRI(rec: StreamSRI) returns (updateSRI: bool)
      modifies this
      ensures updateSRI == !SameSRI(rec, old(currSRI))
      ensures currSRI == if updateSRI then Merged(old(currSRI), rec) else old(currSRI)
      ensures pushedSRI == if updateSRI then old(pushedSRI) + [currSRI] else old(pushedSRI)
      ensures updateSRI ==>
                currSRI.(keywords := rec.keywords, subsize := rec.subsize, blocking := rec.blocking) == rec
      ensures currSRI.subsize == old(currSRI).subsize && currSRI.blocking == old(currSRI).blocking
      ensures AsMap(currSRI.keywords) == if updateSRI then AsMap(old(currSRI.keywords)) + AsMap(rec.keywords)
                                         else AsMap(old(currSRI.keywords))
      ensures !updateSRI && currSRI != rec ==>
                || rec.yunits != currSRI.yunits || rec.blocking != currSRI.blocking
                || !SameIds(rec.keywords, currSRI.keywords)
    {
      updateSRI := false;
      var same := CompareSRI(rec, currSRI);
      if !same {
        ghost var cur := currSRI;
        ghost var ks := cur.keywords;
        currSRI := currSRI.(xdelta := rec.xdelta, streamID := rec.streamID, hversion := rec.hversion,
                            xstart := rec.xstart, xunits := rec.xunits, ystart := rec.ystart,
                            ydelta := rec.ydelta, yunits := rec.yunits, mode := rec.mode);
        var keySize, currSize := |rec.keywords|, |currSRI.keywords|;
        updateSRI := true;
        MergeNothing(ks);
        var i := 0;
        while i < keySize
          invariant 0 <= i <= keySize && currSize == |ks| && pushedSRI == old(pushedSRI)
          invariant currSRI == Merged(cur, rec).(keywords := currSRI.keywords)
          invariant currSRI.keywords == MergedKeywords(ks, rec.keywords[..i])
        {
          MergeStep(ks, rec.keywords, i);
          var foundID := MergeOne(rec.keywords[i], currSize);
          if !foundID {
            currSRI := currSRI.(keywords := currSRI.keywords + [rec.keywords[i]]);
          }
          i := i + 1;
        }
        assert rec.keywords[..keySize] == rec.keywords;
        MergeIsOverride(ks, rec.keywords);
        pushedSRI := pushedSRI + [currSRI];
      } else {
        CompareMissesIff(rec, currSRI);
      }
    }

    method AddModifyKeyword(id: string, value: Any, addOnly: bool)
      modifies `currSRI
      ensures currSRI == old(currSRI).(keywords := SetKeyword(old(currSRI.keywords), id, value, addOnly))
    {
      var ks := currSRI.keywords;
      if !addOnly {
        var i := 0;
        while i < |ks|
          invariant 0 <= i <= |ks| && !HasId(ks[..i], id) && currSRI == old(currSRI)
        {
          if ks[i].id == id {
            SetAt(ks, id, value, i);
            currSRI := currSRI.(keywords := ks[i := ks[i].(value := value)]);
            return;
          }
          assert ks[..i + 1] == ks[..i] + [ks[i]];
          i := i + 1;
        }
        assert ks[..|ks|] == ks;
      }
      currSRI := currSRI.(keywords := ks + [Keyword(id, value)]);
    }
  }

  lemma NoneHere(id: string)
    ensures !HasId([], id)
  {
  }

  lemma OneMoreKeyword(ks: seq<Keyword>, j: nat, id: string)
    requires j < |ks|
    ensures HasId(ks[..j + 1], id) <==> HasId(ks[..j], id) || ks[j].id == id
  {
    assert ks[..j + 1] == ks[..j] + [ks[j]];
    if HasId(ks[..j], id) {
      var i :| 0 <= i < j && ks[..j][i].id == id;
      assert ks[..j + 1][i].id == id;
    }
    if ks[j].id == id { assert ks[..j + 1][j].id == id; }
  }

  lemma OverriddenByOne(k: Keyword, received: Keyword)
    ensures Overridden(k, [received]) == if received.id == k.id then k.(value := received.value) else k
  {
    assert [received][..0] == [];
  }

  lemma {:induction false} SetAt(ks: seq<Keyword>, id: string, value: Any, i: nat)
    requires i < |ks| && ks[i].id == id && !HasId(ks[..i], id)
    ensures SetKeyword(ks, id, value, false) == ks[i := ks[i].(value := value)]
  {
    assert HasId(ks, id);
    if i > 0 {
      assert ks[..i][0].id != id;
      assert ks[1..][i - 1].id == id;
      var rest := ks[1..][..i - 1];
      forall j | 0 <= j < |rest| ensures rest[j].id != id { assert rest[j] == ks[..i][j + 1]; }
      SetAt(ks[1..], id, value, i - 1);
    }
  }

  lemma MergeNothing(ks: seq<Keyword>)
    ensures MergedKeywords(ks, []) == ks
  {
  }

  lemma OverriddenSnoc(k: Keyword, rec: seq<Keyword>, last: Keyword)
    ensures Overridden(k, rec + [last]) == Overridden(Overridden(k, rec), [last])
    ensures Overridden(k, rec).id == k.id
  {
    assert (rec + [last])[..|rec|] == rec;
    OverriddenId(k, rec);
    assert [last][..0] == [];
  }

  lemma {:induction false} OverriddenId(k: Keyword, rec: seq<Keyword>)
    ensures Overridden(k, rec).id == k.id
  {
    if rec != [] { OverriddenId(k, rec[..|rec| - 1]); }
  }

  lemma OverrideAllIds(ks: seq<Keyword>, rec: seq<Keyword>)
    ensures |OverrideAll(ks, rec)| == |ks|
    ensures forall j :: 0 <= j < |ks| ==> OverrideAll(ks, rec)[j].id == ks[j].id
    ensures forall id :: HasId(OverrideAll(ks, rec), id) <==> HasId(ks, id)
  {
    forall j | 0 <= j < |ks| ensures OverrideAll(ks, rec)[j].id == ks[j].id { OverriddenId(ks[j], rec); }
    forall id ensures HasId(OverrideAll(ks, rec), id) <==> HasId(ks, id) {
      if HasId(ks, id) {
        var j :| 0 <= j < |ks| && ks[j].id == id;
        assert OverrideAll(ks, rec)[j].id == id;
      }
    }
  }

  /** One turn of the outer loop. */
  lemma MergeStep(ks: seq<Keyword>, rec: seq<Keyword>, i: nat)
    requires i < |rec|
    ensures var before := MergedKeywords(ks, rec[..i]);
            && |before| >= |ks|
            && HasId(before[..|ks|], rec[i].id) == HasId(ks, rec[i].id)
            && MergedKeywords(ks, rec[..i + 1]) ==
               OverrideAll(before[..|ks|], [rec[i]]) + before[|ks|..] + (if HasId(ks, rec[i].id) then [] else [rec[i]])
  {
    var before := MergedKeywords(ks, rec[..i]);
    var first := OverrideAll(ks, rec[..i]);
    assert before[..|ks|] == first && before[|ks|..] == NewKeywords(ks, rec[..i]);
    OverrideAllIds(ks, rec[..i]);
    assert rec[..i + 1] == rec[..i] + [rec[i]];
    assert rec[..i + 1][..i] == rec[..i];
    forall j | 0 <= j < |ks| ensures OverrideAll(ks, rec[..i + 1])[j] == OverrideAll(first, [rec[i]])[j] {
      OverriddenSnoc(ks[j], rec[..i], rec[i]);
    }
    assert OverrideAll(ks, rec[..i + 1]) == OverrideAll(first, [rec[i]]);
  }

  // ---- what a merge means ----

  /** The keywords read in order, a later one replacing an earlier one with its id, as the context
      packet is filled in. */
  function AsMap(ks: seq<Keyword>): map<string, Any> {
    if ks == [] then map[] else AsMap(ks[..|ks| - 1])[ks[|ks| - 1].id := ks[|ks| - 1].value]
  }

  lemma {:induction false} AsMapKeys(ks: seq<Keyword>, id: string)
    ensures id in AsMap(ks) <==> HasId(ks, id)
  {
    if ks != [] {
      var last := |ks| - 1;
      AsMapKeys(ks[..last], id);
      assert ks == ks[..last] + [ks[last]];
      assert HasId(ks, id) <==> HasId(ks[..last], id) || ks[last].id == id by {
        if HasId(ks[..last], id) {
          var j :| 0 <= j < last && ks[..last][j].id == id;
          assert ks[j].id == id;
        }
        if HasId(ks, id) {
          var j :| 0 <= j < |ks| && ks[j].id == id;
          assert j < last ==> ks[..last][j].id == id;
        }
      }
    }
  }

  lemma {:induction false} AsMapAppend(a: seq<Keyword>, b: seq<Keyword>)
    ensures AsMap(a + b) == AsMap(a) + AsMap(b)
  {
    if b == [] {
      assert a + b == a;
    } else {
      AsMapAppend(a, b[..|b| - 1]);
      assert (a + b)[..|a + b| - 1] == a + b[..|b| - 1];
    }
  }

  lemma {:induction false} OverriddenValue(k: Keyword, rec: seq<Keyword>)
    ensures Overridden(k, rec) == if k.id in AsMap(rec) then k.(value := AsMap(rec)[k.id]) else k
  {
    if rec != [] { OverriddenValue(k, rec[..|rec| - 1]); }
  }

  lemma {:induction false} OverrideAllMap(ks: seq<Keyword>, rec: seq<Keyword>, id: string)
    ensures id in AsMap(OverrideAll(ks, rec)) <==> id in AsMap(ks)
    ensures id in AsMap(ks) ==>
              AsMap(OverrideAll(ks, rec))[id] == if id in AsMap(rec) then AsMap(rec)[id] else AsMap(ks)[id]
  {
    if ks != [] {
      var last := |ks| - 1;
      OverrideAllMap(ks[..last], rec, id);
      OverriddenValue(ks[last], rec);
      assert OverrideAll(ks, rec)[..last] == OverrideAll(ks[..last], rec);
    }
  }

  lemma {:induction false} NewKeywordsMap(ks: seq<Keyword>, rec: seq<Keyword>, id: string)
    ensures id in AsMap(NewKeywords(ks, rec)) <==> id in AsMap(rec) && !HasId(ks, id)
    ensures id in AsMap(NewKeywords(ks, rec)) ==> AsMap(NewKeywords(ks, rec))[id] == AsMap(rec)[id]
  {
    if rec != [] {
      var last := rec[|rec| - 1];
      var before := NewKeywords(ks, rec[..|rec| - 1]);
      NewKeywordsMap(ks, rec[..|rec| - 1], id);
      if HasId(ks, last.id) {
        assert before + [] == before;
      } else {
        assert (before + [last])[..|before|] == before;
      }
    }
  }

  /** A merge is map override, for all keyword lists, with or without repeated ids. */
  lemma MergeIsOverride(ks: seq<Keyword>, rec: seq<Keyword>)
    ensures AsMap(MergedKeywords(ks, rec)) == AsMap(ks) + AsMap(rec)
  {
    var a, b := AsMap(OverrideAll(ks, rec)), AsMap(NewKeywords(ks, rec));
    AsMapAppend(OverrideAll(ks, rec), NewKeywords(ks, rec));
    hide AsMap, OverrideAll, NewKeywords;
    var both := AsMap(ks) + AsMap(rec);
    forall id: string
      ensures id in a + b <==> id in both
      ensures id in both ==> (a + b)[id] == both[id]
    {
      AsMapKeys(ks, id);
      OverrideAllMap(ks, rec, id);
      NewKeywordsMap(ks, rec, id);
    }
    assert a + b == both;
  }

  /** Stored keywords keep their places and ids; the rest are received keywords with new ids. */
  lemma {:induction false} NewKeywordsFresh(ks: seq<Keyword>, rec: seq<Keyword>)
    ensures forall j :: 0 <= j < |NewKeywords(ks, rec)| ==>
              !HasId(ks, NewKeywords(ks, rec)[j].id) && NewKeywords(ks, rec)[j] in rec
  {
    if rec != [] { NewKeywordsFresh(ks, rec[..|rec| - 1]); }
  }

  /** They are the received ones with new ids, all of them, in received order. */
  lemma {:induction false} NewKeywordsInOrder(ks: seq<Keyword>, rec: seq<Keyword>) returns (at: seq<nat>)
    ensures var added := NewKeywords(ks, rec);
            && |at| == |added|
            && (forall i :: 0 <= i < |at| ==> at[i] < |rec| && added[i] == rec[at[i]])
            && (forall i, j :: 0 <= i < j < |at| ==> at[i] < at[j])
    ensures forall p :: 0 <= p < |rec| && !HasId(ks, rec[p].id) ==> p in at
  {
    if rec == [] {
      at := [];
    } else {
      var last := |rec| - 1;
      var before := NewKeywordsInOrder(ks, rec[..last]);
      at := before;
      if !HasId(ks, rec[last].id) { at := before + [last]; }
      hide HasId, NewKeywords;
      AllStillThere(ks, rec, before, at);
    }
  }

  lemma AllStillThere(ks: seq<Keyword>, rec: seq<Keyword>, before: seq<nat>, at: seq<nat>)
    requires rec != [] && forall p :: 0 <= p < |rec| - 1 && !HasId(ks, rec[..|rec| - 1][p].id) ==> p in before
    requires at == if HasId(ks, rec[|rec| - 1].id) then before else before + [|rec| - 1]
    ensures forall p :: 0 <= p < |rec| && !HasId(ks, rec[p].id) ==> p in at
  {
    hide HasId;
    forall p | 0 <= p < |rec| && !HasId(ks, rec[p].id) ensures p in at {
      if p < |rec| - 1 {
        assert rec[..|rec| - 1][p] == rec[p];
      } else {
        assert at[|before|] == p;
      }
    }
  }

  lemma {:induction false} NewKeywordsUnique(ks: seq<Keyword>, rec: seq<Keyword>)
    requires UniqueIds(rec)
    ensures UniqueIds(NewKeywords(ks, rec))
  {
    if rec != [] {
      var before := rec[..|rec| - 1];
      NewKeywordsUnique(ks, before);
      NewKeywordsFresh(ks, before);
    }
  }

  /** Merging a uniquely keyed list into a uniquely keyed list keeps ids unique and in place. */
  lemma MergeKeepsUnique(ks: seq<Keyword>, rec: seq<Keyword>)
    requires UniqueIds(ks) && UniqueIds(rec)
    ensures UniqueIds(MergedKeywords(ks, rec))
    ensures |ks| <= |MergedKeywords(ks, rec)|
    ensures forall j :: 0 <= j < |ks| ==> MergedKeywords(ks, rec)[j].id == ks[j].id
  {
    var m, added := MergedKeywords(ks, rec), NewKeywords(ks, rec);
    OverrideAllIds(ks, rec);
    NewKeywordsUnique(ks, rec);
    NewKeywordsFresh(ks, rec);
    forall i, j | 0 <= i < j < |m| ensures m[i].id != m[j].id {
      if i < |ks| <= j {
        assert ks[i].id == m[i].id && m[j] == added[j - |ks|];
      } else if i >= |ks| {
        assert m[i] == added[i - |ks|] && m[j] == added[j - |ks|];
      }
    }
  }

  lemma {:induction false} NoNewKeywords(ks: seq<Keyword>, rec: seq<Keyword>)
    requires forall j :: 0 <= j < |rec| ==> HasId(ks, rec[j].id)
    ensures NewKeywords(ks, rec) == []
  {
    if rec != [] {
      assert HasId(ks, rec[|rec| - 1].id);
      NoNewKeywords(ks, rec[..|rec| - 1]);
    }
  }

  lemma MergedHasAll(ks: seq<Keyword>, rec: seq<Keyword>, id: string)
    ensures HasId(MergedKeywords(ks, rec), id) <==> HasId(ks, id) || HasId(rec, id)
  {
    MergeIsOverride(ks, rec);
    AsMapKeys(MergedKeywords(ks, rec), id);
    AsMapKeys(ks, id);
    AsMapKeys(rec, id);
  }

  /** Merging the same list again changes no keyword if and only if every keyword it added the first
      time carries the last value received for its id; in particular when the ids are unique. */
  lemma RemergeIff(ks: seq<Keyword>, rec: seq<Keyword>)
    ensures var m, added := MergedKeywords(ks, rec), NewKeywords(ks, rec);
            MergedKeywords(m, rec) == m <==>
            forall j :: 0 <= j < |added| ==> added[j].id in AsMap(rec) && AsMap(rec)[added[j].id] == added[j].value
    ensures UniqueIds(rec) ==> MergedKeywords(MergedKeywords(ks, rec), rec) == MergedKeywords(ks, rec)
  {
    hide MergedKeywords, NewKeywords, Overridden, OverrideAll, AsMap, UniqueIds;
    var m, added := MergedKeywords(ks, rec), NewKeywords(ks, rec);
    var again := MergedKeywords(m, rec);
    MergedParts(ks, rec);
    RemergeParts(ks, rec);
    forall j | 0 <= j < |added|
      ensures added[j].id in AsMap(rec)
      ensures again[|ks| + j] == m[|ks| + j] <==> AsMap(rec)[added[j].id] == added[j].value
      ensures UniqueIds(rec) ==> AsMap(rec)[added[j].id] == added[j].value
    {
      AddedValue(ks, rec, j);
      OverriddenValue(added[j], rec);
      assert m[|ks| + j] == added[j];
    }
    if forall j :: 0 <= j < |added| ==> AsMap(rec)[added[j].id] == added[j].value {
      forall j | 0 <= j < |m| ensures again[j] == m[j] {
        if j >= |ks| { assert again[|ks| + (j - |ks|)] == m[|ks| + (j - |ks|)]; }
      }
      assert again == m;
    }
    if again == m {
      forall j | 0 <= j < |added| ensures AsMap(rec)[added[j].id] == added[j].value {
        assert again[|ks| + j] == m[|ks| + j];
      }
    }
  }

  lemma RemergeParts(ks: seq<Keyword>, rec: seq<Keyword>)
    ensures var m, added := MergedKeywords(ks, rec), NewKeywords(ks, rec);
            var again := MergedKeywords(m, rec);
            && |again| == |m| == |ks| + |added|
            && (forall j :: 0 <= j < |ks| ==> again[j] == m[j])
            && (forall j :: 0 <= j < |added| ==> again[|ks| + j] == Overridden(added[j], rec))
  {
    hide MergedKeywords, NewKeywords, Overridden, AsMap, OverrideAll;
    var m, added := MergedKeywords(ks, rec), NewKeywords(ks, rec);
    MergedParts(ks, rec);
    MergedParts(m, rec);
    forall j | 0 <= j < |rec| ensures HasId(m, rec[j].id) {
      assert HasId(rec, rec[j].id);
      MergedHasAll(ks, rec, rec[j].id);
    }
    NoNewKeywords(m, rec);
    forall j | 0 <= j < |ks| ensures Overridden(m[j], rec) == m[j] {
      assert m[j] == Overridden(ks[j], rec);
      OverriddenValue(ks[j], rec);
      OverriddenValue(m[j], rec);
    }
    forall j | 0 <= j < |added| ensures m[|ks| + j] == added[j] {}
  }

  lemma MergedParts(ks: seq<Keyword>, rec: seq<Keyword>)
    ensures MergedKeywords(ks, rec) == OverrideAll(ks, rec) + NewKeywords(ks, rec)
    ensures |OverrideAll(ks, rec)| == |ks|
    ensures forall j :: 0 <= j < |ks| ==> OverrideAll(ks, rec)[j] == Overridden(ks[j], rec)
  {
  }

  lemma AddedValue(ks: seq<Keyword>, rec: seq<Keyword>, j: nat)
    requires j < |NewKeywords(ks, rec)|
    ensures var k := NewKeywords(ks, rec)[j];
            k.id in AsMap(rec) && (UniqueIds(rec) ==> AsMap(rec)[k.id] == k.value)
  {
    var k := NewKeywords(ks, rec)[j];
    NewKeywordsFresh(ks, rec);
    assert k in rec;
    var i :| 0 <= i < |rec| && rec[i] == k;
    AsMapKeys(rec, k.id);
    if UniqueIds(rec) { UniqueValue(rec, k); }
  }

  lemma {:induction false} UniqueValue(ks: seq<Keyword>, k: Keyword)
    requires UniqueIds(ks) && k in ks
    ensures k.id in AsMap(ks) && AsMap(ks)[k.id] == k.value
  {
    var last := |ks| - 1;
    if ks[last] != k {
      var i :| 0 <= i < |ks| && ks[i] == k;
      assert ks[..last][i] == k;
      UniqueValue(ks[..last], k);
    }
  }

  // ---- change reports ----

  /** compareSRI calls two SRIs the same although they differ exactly when they differ in nothing but
      keyword ids, yunits or blocking. */
  lemma CompareMissesIff(a: StreamSRI, b: StreamSRI)
    ensures a == b <==>
            SameSRI(a, b) && a.yunits == b.yunits && a.blocking == b.blocking && SameIds(a.keywords, b.keywords)
  {
    if SameSRI(a, b) && a.yunits == b.yunits && a.blocking == b.blocking && SameIds(a.keywords, b.keywords) {
      forall i | 0 <= i < |a.keywords| ensures a.keywords[i] == b.keywords[i] {}
      assert a.keywords == b.keywords;
    }
  }

  /** compareSRI is blind to keyword ids, yunits and blocking: changing nothing else is no change. */
  lemma CompareIsBlind(a: StreamSRI, b: StreamSRI)
    requires |b.keywords| == |a.keywords|
    requires forall i :: 0 <= i < |a.keywords| ==> b.keywords[i].value == a.keywords[i].value
    ensures SameSRI(a, a.(yunits := b.yunits, blocking := b.blocking, keywords := b.keywords))
  {
  }

  /** And any other difference is seen. */
  lemma CompareSees(a: StreamSRI, b: StreamSRI)
    ensures SameSRI(a, b) <==>
            && a == b.(yunits := a.yunits, blocking := a.blocking, keywords := a.keywords)
            && |a.keywords| == |b.keywords|
            && forall i :: 0 <= i < |a.keywords| ==> a.keywords[i].value == b.keywords[i].value
  {
  }

  datatype Op = Merge(rec: StreamSRI) | Set(id: string, value: Any, addOnly: bool)

  /** What one operation leaves as the current SRI. */
  function Apply(cur: StreamSRI, op: Op): StreamSRI {
    match op
    case Merge(rec) => if SameSRI(rec, cur) then cur else Merged(cur, rec)
    case Set(id, value, addOnly) => cur.(keywords := SetKeyword(cur.keywords, id, value, addOnly))
  }

  function ApplyAll(cur: StreamSRI, ops: seq<Op>): StreamSRI {
    if ops == [] then cur else Apply(ApplyAll(cur, ops[..|ops| - 1]), ops[|ops| - 1])
  }

  lemma {:induction false} SetKeywordKeeps(ks: seq<Keyword>, id: string, value: Any, addOnly: bool)
    ensures |ks| <= |SetKeyword(ks, id, value, addOnly)| <= |ks| + 1
    ensures HasId(SetKeyword(ks, id, value, addOnly), id)
    ensures forall x: string :: HasId(ks, x) ==> HasId(SetKeyword(ks, id, value, addOnly), x)
  {
    var r := SetKeyword(ks, id, value, addOnly);
    if addOnly || !HasId(ks, id) {
      assert r[|ks|].id == id;
      forall x: string | HasId(ks, x) ensures HasId(r, x) {
        var i :| 0 <= i < |ks| && ks[i].id == x;
        assert r[i].id == x;
      }
    } else if ks[0].id == id {
      forall x: string | HasId(ks, x) ensures HasId(r, x) {
        var i :| 0 <= i < |ks| && ks[i].id == x;
        assert r[i].id == x;
      }
      assert r[0].id == id;
    } else {
      SetKeywordKeeps(ks[1..], id, value, addOnly);
      var s := SetKeyword(ks[1..], id, value, addOnly);
      forall x: string | HasId(ks, x) || x == id ensures HasId(r, x) {
        if ks[0].id == x {
          assert r[0].id == x;
        } else {
          if HasId(ks, x) {
            var i :| 0 <= i < |ks| && ks[i].id == x;
            assert ks[1..][i - 1].id == x;
            assert HasId(ks[1..], x);
          }
          assert HasId(s, x);
          var j :| 0 <= j < |s| && s[j].id == x;
          assert r[j + 1].id == x;
        }
      }
    }
  }

  /** The keyword list never gets shorter and the subsize never changes. */
  lemma {:induction false} ApplyAllGrows(cur: StreamSRI, ops: seq<Op>)
    ensures |cur.keywords| <= |ApplyAll(cur, ops).keywords| && ApplyAll(cur, ops).subsize == cur.subsize
  {
    if ops != [] {
      var before := ApplyAll(cur, ops[..|ops| - 1]);
      ApplyAllGrows(cur, ops[..|ops| - 1]);
      match ops[|ops| - 1]
      case Merge(rec) =>
      case Set(id, value, addOnly) => SetKeywordKeeps(before.keywords, id, value, addOnly);
    }
  }

  /** Different ids need as many places. */
  lemma {:induction false} AtLeastIds(ks: seq<Keyword>, rec: seq<Keyword>)
    requires UniqueIds(rec) && forall j :: 0 <= j < |rec| ==> HasId(ks, rec[j].id)
    ensures |rec| <= |ks|
  {
    if rec != [] {
      var last := |rec| - 1;
      assert HasId(ks, rec[last].id);
      var at :| 0 <= at < |ks| && ks[at].id == rec[last].id;
      var rest := ks[..at] + ks[at + 1..];
      forall j | 0 <= j < |rec[..last]| ensures HasId(rest, rec[..last][j].id) {
        assert HasId(ks, rec[j].id);
        var i :| 0 <= i < |ks| && ks[i].id == rec[j].id;
        assert rest[if i < at then i else i - 1].id == rec[j].id;
      }
      AtLeastIds(rest, rec[..last]);
    }
  }

  /** Once a uniquely keyed SRI has been merged into one that holds a keyword of its own, merging that
      SRI again reports a change every time, whatever was merged or set in between; likewise when the
      received subsize is not the stored one. */
  lemma AlwaysReportsChange(cur: StreamSRI, rec: StreamSRI, own: Keyword, ops: seq<Op>)
    requires UniqueIds(rec.keywords)
    requires (HasId(cur.keywords, own.id) && !HasId(rec.keywords, own.id)) || rec.subsize != cur.subsize
    ensures !SameSRI(rec, ApplyAll(Merged(cur, rec), ops))
  {
    ApplyAllGrows(Merged(cur, rec), ops);
    if rec.subsize == cur.subsize { OneMore(cur.keywords, rec.keywords, own); }
  }

  // ---- exactly when the reports go on ----

  predicate AllReceived(ks: seq<Keyword>, rec: seq<Keyword>) {
    forall j :: 0 <= j < |ks| ==> HasId(rec, ks[j].id)
  }

  /** A merged keyword whose id was received has the received value. */
  lemma MergedValue(ks: seq<Keyword>, rec: seq<Keyword>, i: nat)
    requires UniqueIds(rec) && i < |MergedKeywords(ks, rec)|
    ensures var k := MergedKeywords(ks, rec)[i]; k.id in AsMap(rec) ==> k.value == AsMap(rec)[k.id]
  {
    MergedParts(ks, rec);
    if i < |ks| {
      OverriddenValue(ks[i], rec);
    } else {
      AddedValue(ks, rec, i - |ks|);
      assert MergedKeywords(ks, rec)[i] == NewKeywords(ks, rec)[i - |ks|];
    }
  }

  /** The merged list is as long as the received one if and only if every stored id was received. */
  lemma MergedLengthIff(ks: seq<Keyword>, rec: seq<Keyword>)
    requires UniqueIds(ks) && UniqueIds(rec)
    ensures |MergedKeywords(ks, rec)| == |rec| <==> AllReceived(ks, rec)
    ensures AllReceived(ks, rec) ==> AllReceived(MergedKeywords(ks, rec), rec)
  {
    var m := MergedKeywords(ks, rec);
    MergeKeepsUnique(ks, rec);
    hide MergedKeywords;
    forall j | 0 <= j < |rec| ensures HasId(m, rec[j].id) {
      assert HasId(rec, rec[j].id);
      MergedHasAll(ks, rec, rec[j].id);
    }
    AtLeastIds(m, rec);
    if AllReceived(ks, rec) {
      forall j | 0 <= j < |m| ensures HasId(rec, m[j].id) {
        assert HasId(m, m[j].id);
        MergedHasAll(ks, rec, m[j].id);
        if HasId(ks, m[j].id) {
          var i :| 0 <= i < |ks| && ks[i].id == m[j].id;
          assert HasId(rec, ks[i].id);
        }
      }
      AtLeastIds(rec, m);
    } else {
      var j :| 0 <= j < |ks| && !HasId(rec, ks[j].id);
      assert HasId(ks, ks[j].id);
      OneMore(ks, rec, ks[j]);
    }
  }

  /** A stored id that was not received makes the merged list longer than the received one. */
  lemma OneMore(ks: seq<Keyword>, rec: seq<Keyword>, own: Keyword)
    requires UniqueIds(rec) && HasId(ks, own.id) && !HasId(rec, own.id)
    ensures |MergedKeywords(ks, rec)| > |rec|
  {
    var m := MergedKeywords(ks, rec);
    var all := rec + [own];
    hide MergedKeywords;
    forall j | 0 <= j < |all| ensures HasId(m, all[j].id) {
      MergedHasAll(ks, rec, all[j].id);
      if j < |rec| { assert rec[j].id == all[j].id; }
    }
    assert UniqueIds(all) by {
      forall i, j | 0 <= i < j < |all| ensures all[i].id != all[j].id {
        assert rec[i].id == all[i].id;
      }
    }
    AtLeastIds(m, all);
  }

  /** Merging the same SRI a second time reports no change if and only if the subsizes agree, every stored id was
      received, and the received values stand in the order of the merged ids: the stored ones, then the new ones. */
  lemma RepeatSilentIff(cur: StreamSRI, rec: StreamSRI)
    requires UniqueIds(cur.keywords) && UniqueIds(rec.keywords)
    ensures SameSRI(rec, Merged(cur, rec)) <==>
            var m := MergedKeywords(cur.keywords, rec.keywords);
            && rec.subsize == cur.subsize && AllReceived(cur.keywords, rec.keywords)
            && (forall i :: 0 <= i < |rec.keywords| && i < |m| && m[i].id in AsMap(rec.keywords) ==>
                  rec.keywords[i].value == AsMap(rec.keywords)[m[i].id])
  {
    var ks, rs := cur.keywords, rec.keywords;
    var m := MergedKeywords(ks, rs);
    MergedLengthIff(ks, rs);
    hide MergedKeywords, AsMap, UniqueIds, HasId;
    if AllReceived(ks, rs) {
      forall i | 0 <= i < |m| ensures m[i].id in AsMap(rs) && m[i].value == AsMap(rs)[m[i].id] {
        assert HasId(rs, m[i].id);
        AsMapKeys(rs, m[i].id);
        MergedValue(ks, rs, i);
      }
    }
  }

  /** Whatever is merged and set in between, further merges of the same SRI report a change every time, if and
      only if a stored id was not received or the subsizes differ. */
  lemma AlwaysReportsIff(cur: StreamSRI, rec: StreamSRI)
    requires UniqueIds(cur.keywords) && UniqueIds(rec.keywords)
    ensures (forall ops :: !SameSRI(rec, ApplyAll(Merged(cur, rec), ops))) <==>
            rec.subsize != cur.subsize || !AllReceived(cur.keywords, rec.keywords)
  {
    hide UniqueIds, MergedKeywords, SameSRI;
    if rec.subsize != cur.subsize {
      forall ops ensures !SameSRI(rec, ApplyAll(Merged(cur, rec), ops)) {
        AlwaysReportsChange(cur, rec, Keyword("", Any("", "")), ops);
      }
    } else if !AllReceived(cur.keywords, rec.keywords) {
      var j :| 0 <= j < |cur.keywords| && !HasId(rec.keywords, cur.keywords[j].id);
      assert HasId(cur.keywords, cur.keywords[j].id);
      forall ops ensures !SameSRI(rec, ApplyAll(Merged(cur, rec), ops)) {
        AlwaysReportsChange(cur, rec, cur.keywords[j], ops);
      }
    } else {
      var other := SilencedBy(cur, rec);
      assert SameSRI(rec, ApplyAll(Merged(cur, rec), [Merge(other)]));
    }
  }

  /** Merging a list with the stored ids in their places replaces the stored list. */
  lemma SameIdsReplace(ks: seq<Keyword>, rec: seq<Keyword>)
    requires UniqueIds(rec) && |ks| == |rec| && forall j :: 0 <= j < |ks| ==> ks[j].id == rec[j].id
    ensures MergedKeywords(ks, rec) == rec
  {
    MergedParts(ks, rec);
    forall j | 0 <= j < |rec| ensures HasId(ks, rec[j].id) { assert ks[j].id == rec[j].id; }
    NoNewKeywords(ks, rec);
    forall j | 0 <= j < |rec| ensures Overridden(ks[j], rec) == rec[j] {
      OverriddenValue(ks[j], rec);
      UniqueValue(rec, rec[j]);
    }
  }

  /** One merge of another SRI silences the reports: the merged ids in their order, with the received values as
      they stand. */
  lemma SilencedBy(cur: StreamSRI, rec: StreamSRI) returns (other: StreamSRI)
    requires UniqueIds(cur.keywords) && UniqueIds(rec.keywords)
    requires rec.subsize == cur.subsize && AllReceived(cur.keywords, rec.keywords)
    ensures SameSRI(rec, ApplyAll(Merged(cur, rec), [Merge(other)]))
  {
    hide MergedKeywords, SameSRI, HasId, AllReceived, ApplyAll;
    var m := Merged(cur, rec);
    MergeKeepsUnique(cur.keywords, rec.keywords);
    MergedLengthIff(cur.keywords, rec.keywords);
    other := rec.(keywords := seq(|rec.keywords|, i requires 0 <= i < |rec.keywords| =>
                                    Keyword(m.keywords[i].id, rec.keywords[i].value)));
    assert UniqueIds(other.keywords);
    SameIdsReplace(m.keywords, other.keywords);
    SilencedStep(m, rec, other);
  }

  lemma SilencedStep(m: StreamSRI, rec: StreamSRI, other: StreamSRI)
    requires other == rec.(keywords := other.keywords) && m.subsize == rec.subsize
    requires |m.keywords| == |other.keywords| == |rec.keywords|
    requires forall i :: 0 <= i < |rec.keywords| ==> other.keywords[i].value == rec.keywords[i].value
    requires MergedKeywords(m.keywords, other.keywords) == other.keywords
    ensures SameSRI(rec, ApplyAll(m, [Merge(other)]))
  {
    hide MergedKeywords;
    assert [Merge(other)][..0] == [];
    assert ApplyAll(m, [Merge(other)]) == Apply(m, Merge(other));
  }

  /** The two keywords setupOutputStream adds. */
  function Prepared(cur: StreamSRI, dataRef: Any, priority: Any): StreamSRI {
    ApplyAll(cur, [Set("dataRef", dataRef, false), Set("BULKIO_SRI_PRIORITY", priority, false)])
  }

  /** Setting a keyword adds its id and no other, and keeps ids unique. */
  lemma {:induction false} SetKeywordIds(ks: seq<Keyword>, id: string, value: Any)
    requires UniqueIds(ks)
    ensures var r := SetKeyword(ks, id, value, false);
            UniqueIds(r) && (forall x: string :: HasId(r, x) <==> HasId(ks, x) || x == id)
  {
    var r := SetKeyword(ks, id, value, false);
    SetKeywordKeeps(ks, id, value, false);
    if HasId(ks, id) {
      var i :| 0 <= i < |ks| && ks[i].id == id;
      assert !HasId(ks[..i], id) by { forall j | 0 <= j < i ensures ks[..i][j].id != id {} }
      SetAt(ks, id, value, i);
    } else {
      forall j | 0 <= j < |ks| ensures ks[j].id != id {}
    }
    forall x: string | HasId(r, x) ensures HasId(ks, x) || x == id {
      var j :| 0 <= j < |r| && r[j].id == x;
      assert j < |ks| ==> ks[j].id == x;
    }
  }

  /** Setting a keyword sets its value and no other: with unique ids, or added at the end. */
  lemma {:induction false} SetKeywordSets(ks: seq<Keyword>, id: string, value: Any, addOnly: bool)
    requires UniqueIds(ks) || addOnly || !HasId(ks, id)
    ensures AsMap(SetKeyword(ks, id, value, addOnly)) == AsMap(ks)[id := value]
  {
    if addOnly || !HasId(ks, id) {
      assert (ks + [Keyword(id, value)])[..|ks|] == ks;
    } else {
      var i :| 0 <= i < |ks| && ks[i].id == id;
      assert !HasId(ks[..i], id) by { forall j | 0 <= j < i ensures ks[..i][j].id != id {} }
      SetAt(ks, id, value, i);
      AsMapUpdate(ks, i, value);
    }
  }

  lemma {:induction false} AsMapUpdate(ks: seq<Keyword>, i: nat, value: Any)
    requires UniqueIds(ks) && i < |ks|
    ensures AsMap(ks[i := ks[i].(value := value)]) == AsMap(ks)[ks[i].id := value]
  {
    var last := |ks| - 1;
    var t := ks[i := ks[i].(value := value)];
    if i == last {
      assert t[..last] == ks[..last];
    } else {
      AsMapUpdate(ks[..last], i, value);
      assert t[..last] == ks[..last][i := ks[i].(value := value)];
      assert ks[last].id != ks[i].id;
    }
  }

  /** What setupOutputStream leaves: the private ids and the ones there were. */
  lemma PreparedIds(cur: StreamSRI, dataRef: Any, priority: Any)
    ensures var p := Prepared(cur, dataRef, priority);
            && p.subsize == cur.subsize
            && HasId(p.keywords, "dataRef") && HasId(p.keywords, "BULKIO_SRI_PRIORITY")
    ensures UniqueIds(cur.keywords) ==>
              var p := Prepared(cur, dataRef, priority);
              && UniqueIds(p.keywords)
              && AsMap(p.keywords) == AsMap(cur.keywords)["dataRef" := dataRef]["BULKIO_SRI_PRIORITY" := priority]
              && (forall x: string :: HasId(p.keywords, x) <==>
                    HasId(cur.keywords, x) || x == "dataRef" || x == "BULKIO_SRI_PRIORITY")
  {
    var first := SetKeyword(cur.keywords, "dataRef", dataRef, false);
    var sets := [Set("dataRef", dataRef, false), Set("BULKIO_SRI_PRIORITY", priority, false)];
    assert sets[..1] == [Set("dataRef", dataRef, false)] && sets[..1][..0] == [];
    assert ApplyAll(cur, sets[..1]) == Apply(cur, sets[0]);
    hide SetKeyword;
    SetKeywordKeeps(cur.keywords, "dataRef", dataRef, false);
    SetKeywordKeeps(first, "BULKIO_SRI_PRIORITY", priority, false);
    if UniqueIds(cur.keywords) {
      SetKeywordIds(cur.keywords, "dataRef", dataRef);
      SetKeywordIds(first, "BULKIO_SRI_PRIORITY", priority);
      SetKeywordSets(cur.keywords, "dataRef", dataRef, false);
      SetKeywordSets(first, "BULKIO_SRI_PRIORITY", priority, false);
    }
  }

  /** So after a stream has been set up and its SRI merged, every later merge of that SRI reports a
      change if it lacks either private keyword, although nothing the sender can see changed. */
  lemma StreamAlwaysReportsChange(cur: StreamSRI, dataRef: Any, priority: Any, rec: StreamSRI, ops: seq<Op>)
    requires UniqueIds(rec.keywords)
    requires !HasId(rec.keywords, "dataRef") || !HasId(rec.keywords, "BULKIO_SRI_PRIORITY")
    ensures !SameSRI(rec, ApplyAll(Merged(Prepared(cur, dataRef, priority), rec), ops))
  {
    hide Prepared;
    PreparedIds(cur, dataRef, priority);
    var own := if HasId(rec.keywords, "dataRef") then "BULKIO_SRI_PRIORITY" else "dataRef";
    AlwaysReportsChange(Prepared(cur, dataRef, priority), rec, Keyword(own, dataRef), ops);
  }

  /** The reports go on for ever if and only if the sender's SRI lacks a private keyword or one stored before, or
      has another subsize. */
  lemma StreamAlwaysReportsIff(cur: StreamSRI, dataRef: Any, priority: Any, rec: StreamSRI)
    requires UniqueIds(cur.keywords) && UniqueIds(rec.keywords)
    ensures (forall ops :: !SameSRI(rec, ApplyAll(Merged(Prepared(cur, dataRef, priority), rec), ops))) <==>
            || rec.subsize != cur.subsize || !AllReceived(cur.keywords, rec.keywords)
            || !HasId(rec.keywords, "dataRef") || !HasId(rec.keywords, "BULKIO_SRI_PRIORITY")
  {
    hide Prepared, SameSRI, ApplyAll, Merged;
    var p := Prepared(cur, dataRef, priority);
    PreparedIds(cur, dataRef, priority);
    AlwaysReportsIff(p, rec);
    ReceivedById(p.keywords, rec.keywords);
    ReceivedById(cur.keywords, rec.keywords);
  }

  lemma ReceivedById(ks: seq<Keyword>, rec: seq<Keyword>)
    ensures AllReceived(ks, rec) <==> forall x: string :: HasId(ks, x) ==> HasId(rec, x)
  {
    if forall x: string :: HasId(ks, x) ==> HasId(rec, x) {
      forall j | 0 <= j < |ks| ensures HasId(rec, ks[j].id) { assert HasId(ks, ks[j].id); }
    }
  }
}
