/**
 * The target-matching rule of the YOLO reCAPTCHA solver (yolo_solver.py):
 * the table from challenge words to detector class ids, the test whether
 * some detection shows the challenge's target, and the extraction of the
 * target word from the challenge text.
 */
module YoloSolver {
  import opened Strings

  /** One object the detector reports: its class name, class id and confidence. */
  datatype Detection = Detection(className: string, classId: int, confidence: real)

  /** The table from object names to detector class ids, in its written order. */
  const CLASS_MAPPINGS: seq<(string, seq<int>)> := [
    ("traffic light", [9]),
    ("bicycle", [1]),
    ("car", [2]),
    ("motorcycle", [3]),
    ("airplane", [4]),
    ("bus", [5]),
    ("train", [6]),
    ("truck", [7]),
    ("boat", [8]),
    ("fire hydrant", [10]),
    ("stop sign", [11]),
    ("parking meter", [12]),
    ("bench", [13]),
    ("bird", [14]),
    ("cat", [15]),
    ("dog", [16]),
    ("horse", [17]),
    ("sheep", [18]),
    ("cow", [19]),
    ("elephant", [20]),
    ("bear", [21]),
    ("zebra", [22]),
    ("giraffe", [23])
  ]

  /** A detection counts only with confidence strictly above this. */
  const MIN_CONFIDENCE: real := 0.4

  /** Either string occurs in the other. */
  predicate NameRelated(a: string, b: string)
  {
    Contains(a, b) || Contains(b, a)
  }

  // ---------------------------------------------------------------- class ids

  /**
   * The ids of every table entry whose lower-cased name and the
   * (lower-cased) target occur in one another, in table order.
   */
  function TargetClassIds(table: seq<(string, seq<int>)>, target: string): seq<int>
  {
    if table == [] then []
    else (if NameRelated(Lower(table[0].0), target) then table[0].1 else []) + TargetClassIds(table[1..], target)
  }

  lemma {:induction false} TargetClassIdsAppend(table: seq<(string, seq<int>)>, entry: (string, seq<int>), target: string)
    ensures TargetClassIds(table + [entry], target)
      == TargetClassIds(table, target) + if NameRelated(Lower(entry.0), target) then entry.1 else []
  {
    var last := if NameRelated(Lower(entry.0), target) then entry.1 else [];
    if table == [] {
      assert [entry][1..] == [];
    } else {
      var first := if NameRelated(Lower(table[0].0), target) then table[0].1 else [];
      var rest := TargetClassIds(table[1..], target);
      assert (table + [entry])[0] == table[0];
      assert (table + [entry])[1..] == table[1..] + [entry];
      TargetClassIdsAppend(table[1..], entry, target);
      assert TargetClassIds(table + [entry], target) == first + (rest + last);
      assert TargetClassIds(table, target) == first + rest;
      assert first + (rest + last) == (first + rest) + last;
    }
  }

  /** An id is collected exactly when some entry related to the target lists it. */
  lemma {:induction false} TargetClassIdsMembers(table: seq<(string, seq<int>)>, target: string, id: int)
    ensures id in TargetClassIds(table, target)
      <==> exists k :: 0 <= k < |table| && NameRelated(Lower(table[k].0), target) && id in table[k].1
  {
    if table != [] {
      TargetClassIdsMembers(table[1..], target, id);
      if exists k :: 0 <= k < |table| && NameRelated(Lower(table[k].0), target) && id in table[k].1 {
        var k :| 0 <= k < |table| && NameRelated(Lower(table[k].0), target) && id in table[k].1;
        if k > 0 {
          assert table[1..][k - 1] == table[k];
        }
      }
      if id in TargetClassIds(table[1..], target) {
        var k :| 0 <= k < |table[1..]| && NameRelated(Lower(table[1..][k].0), target) && id in table[1..][k].1;
        assert table[k + 1] == table[1..][k];
      }
    }
  }

  // ---------------------------------------------------------------- matching

  /**
   * A detection shows the target when it is confident enough and its
   * lower-cased name and the target occur in one another, or its class id
   * is one of the target's ids.
   */
  predicate Matches(ids: seq<int>, target: string, d: Detection)
  {
    d.confidence > MIN_CONFIDENCE && (NameRelated(Lower(d.className), target) || d.classId in ids)
  }

  /** Some detection, scanned in order, shows the target. */
  function AnyMatch(ids: seq<int>, target: string, ds: seq<Detection>): bool
  {
    if ds == [] then false else Matches(ids, target, ds[0]) || AnyMatch(ids, target, ds[1..])
  }

  /** The scan finds a match exactly when some detection of the list matches. */
  lemma {:induction false} AnyMatchSpec(ids: seq<int>, target: string, ds: seq<Detection>)
    ensures AnyMatch(ids, target, ds) <==> exists d :: d in ds && Matches(ids, target, d)
  {
    if ds != [] {
      AnyMatchSpec(ids, target, ds[1..]);
      assert ds == [ds[0]] + ds[1..];
    }
  }

  /**
   * The answer of `matches_target`: some detection shows the target, where
   * the target and all names are compared in lower case and ids come from
   * the class table.
   */
  ghost predicate TargetPresent(detections: seq<Detection>, targetObject: string)
  {
    var target := Lower(targetObject);
    exists d :: d in detections && Matches(TargetClassIds(CLASS_MAPPINGS, target), target, d)
  }

  /**
   * `matches_target`: an empty list answers False at once; otherwise the ids
   * of the target are gathered from the class table, then the detections are
   * scanned for one that matches by name or by id.
   */
  method MatchesTarget(detections: seq<Detection>, targetObject: string) returns (found: bool)
    ensures found <==> TargetPresent(detections, targetObject)
  {
    if detections == [] {
      return false;
    }
    var target := Lower(targetObject);
    var targetClassIds: seq<int> := [];
    for k := 0 to |CLASS_MAPPINGS|
      invariant targetClassIds == TargetClassIds(CLASS_MAPPINGS[..k], target)
    {
      var (objectName, ids) := CLASS_MAPPINGS[k];
      assert CLASS_MAPPINGS[..k + 1] == CLASS_MAPPINGS[..k] + [(objectName, ids)];
      TargetClassIdsAppend(CLASS_MAPPINGS[..k], (objectName, ids), target);
      if Contains(target, Lower(objectName)) || Contains(Lower(objectName), target) {
        targetClassIds := targetClassIds + ids;
      }
    }
    assert CLASS_MAPPINGS[..|CLASS_MAPPINGS|] == CLASS_MAPPINGS;
    AnyMatchSpec(targetClassIds, target, detections);
    for i := 0 to |detections|
      invariant AnyMatch(targetClassIds, target, detections[i..]) == AnyMatch(targetClassIds, target, detections)
    {
      var detection := detections[i];
      assert detections[i..][1..] == detections[i + 1..];
      if Contains(target, Lower(detection.className)) || Contains(Lower(detection.className), target) {
        if detection.confidence > 0.4 {
          assert Matches(targetClassIds, target, detection);
          return true;
        }
      }
      if detection.classId in targetClassIds && detection.confidence > 0.4 {
        assert Matches(targetClassIds, target, detection);
        return true;
      }
    }
    assert detections[|detections|..] == [];
    return false;
  }

  // ---------------------------------------------------------------- properties

  /** With no detections the answer is always False. */
  lemma NoDetectionsNoMatch(targetObject: string)
    ensures !TargetPresent([], targetObject)
  {
  }

  /** A detection at or below the confidence threshold never changes the answer, wherever it stands. */
  lemma LowConfidenceIgnored(before: seq<Detection>, d: Detection, after: seq<Detection>, targetObject: string)
    requires d.confidence <= MIN_CONFIDENCE
    ensures TargetPresent(before + [d] + after, targetObject) <==> TargetPresent(before + after, targetObject)
  {
    var target := Lower(targetObject);
    var ids := TargetClassIds(CLASS_MAPPINGS, target);
    forall e | Matches(ids, target, e)
      ensures e in before + [d] + after <==> e in before + after
    {
      assert e != d;
    }
  }

  /** Only the set of detections matters: reordering or repeating them leaves the answer alone. */
  lemma OrderIrrelevant(ds1: seq<Detection>, ds2: seq<Detection>, targetObject: string)
    requires forall d :: d in ds1 <==> d in ds2
    ensures TargetPresent(ds1, targetObject) <==> TargetPresent(ds2, targetObject)
  {
  }

  /** A permutation of the detections gives the same answer. */
  lemma PermutationIrrelevant(ds1: seq<Detection>, ds2: seq<Detection>, targetObject: string)
    requires multiset(ds1) == multiset(ds2)
    ensures TargetPresent(ds1, targetObject) <==> TargetPresent(ds2, targetObject)
  {
    forall d
      ensures d in ds1 <==> d in ds2
    {
      assert d in ds1 <==> d in multiset(ds1);
      assert d in ds2 <==> d in multiset(ds2);
    }
    OrderIrrelevant(ds1, ds2, targetObject);
  }

  /** Targets that agree in lower case get the same answer, so case never matters in the target. */
  lemma TargetCaseIgnored(ds: seq<Detection>, t1: string, t2: string)
    requires Lower(t1) == Lower(t2)
    ensures TargetPresent(ds, t1) <==> TargetPresent(ds, t2)
  {
  }

  /** Upper-casing the target leaves the answer alone. */
  lemma UpperTargetIgnored(ds: seq<Detection>, targetObject: string)
    ensures TargetPresent(ds, Upper(targetObject)) <==> TargetPresent(ds, targetObject)
  {
    assert Lower(Upper(targetObject)) == Lower(targetObject) by {
      forall i | 0 <= i < |targetObject|
        ensures LowerChar(UpperChar(targetObject[i])) == LowerChar(targetObject[i])
      {
      }
    }
    TargetCaseIgnored(ds, Upper(targetObject), targetObject);
  }

  /** Detections whose names agree in lower case are interchangeable. */
  lemma ClassNameCaseIgnored(ids: seq<int>, target: string, d: Detection, name: string)
    requires Lower(name) == Lower(d.className)
    ensures Matches(ids, target, d) <==> Matches(ids, target, d.(className := name))
  {
  }

  /** The empty target occurs in every name, so any confident detection matches it. */
  lemma EmptyTargetMatchesConfident(ds: seq<Detection>)
    ensures TargetPresent(ds, "") <==> exists d :: d in ds && d.confidence > MIN_CONFIDENCE
  {
    assert Lower("") == "";
    forall d | d in ds && d.confidence > MIN_CONFIDENCE
      ensures Matches(TargetClassIds(CLASS_MAPPINGS, ""), "", d)
    {
      ContainsEmpty(Lower(d.className));
    }
  }

  /** "Cars" names the table entry "car", so class id 2 counts for it. */
  lemma CarsTargetHasCarId()
    ensures 2 in TargetClassIds(CLASS_MAPPINGS, "cars")
  {
    assert CLASS_MAPPINGS[2] == ("car", [2]);
    assert Lower("car") == "car";
    assert OccursAt("cars", "car", 0);
    ContainsAtIndex("cars", "car", 0);
    TargetClassIdsMembers(CLASS_MAPPINGS, "cars", 2);
  }

  /** The lower-case form of the challenge word "Cars". */
  lemma LowerCars()
    ensures Lower("Cars") == "cars"
  {
    assert Lower("Cars")[0] == 'c';
  }

  /** A confident detection whose class id is among the target's ids shows the target, whatever its name. */
  lemma MatchById(ds: seq<Detection>, d: Detection, targetObject: string)
    requires d in ds && d.confidence > MIN_CONFIDENCE
    requires d.classId in TargetClassIds(CLASS_MAPPINGS, Lower(targetObject))
    ensures TargetPresent(ds, targetObject)
  {
  }

  /** A confident detection named "automobile" is still found for "Cars", through its class id. */
  lemma MatchByClassId()
    ensures TargetPresent([Detection("automobile", 2, 0.9)], "Cars")
  {
    LowerCars();
    CarsTargetHasCarId();
    MatchById([Detection("automobile", 2, 0.9)], Detection("automobile", 2, 0.9), "Cars");
  }

  // ---------------------------------------------------------------- the challenge text

  /**
   * `target_text.split("with ")[-1].split(".")[0]`: what follows the last
   * "with ", cut at the first full stop after it.
   */
  function ExtractTarget(text: string): string
  {
    SplitFirst(SplitLast(text, "with "), ".")
  }

  /** "with " cannot overlap itself: its 'w' does not recur. */
  lemma WithNoSelfOverlap()
    ensures NoSelfOverlap("with ")
  {
  }

  /**
   * The extracted target holds no full stop and no "with ", and it is a
   * piece of the text.
   */
  lemma ExtractTargetShape(text: string)
    ensures '.' !in ExtractTarget(text)
    ensures !Contains(ExtractTarget(text), "with ")
    ensures Contains(text, ExtractTarget(text))
  {
    var tail := SplitLast(text, "with ");
    var r := ExtractTarget(text);
    SplitLastSpec(text, "with ");
    SplitFirstSpec(tail, ".");
    SplitFirstNoSeparator(tail, ".");
    ContainsPrefix(tail, |r|);
    if '.' in r {
      ContainsChar(r, '.');
      assert false;
    }
    if Contains(r, "with ") {
      ContainsTransitive(tail, r, "with ");
      assert false;
    }
    ContainsSuffix(text, |text| - |tail|);
    ContainsTransitive(text, tail, r);
  }

  /** A text with no "with " gives everything before its first full stop. */
  lemma ExtractWithoutWith(text: string)
    requires !Contains(text, "with ")
    ensures ExtractTarget(text) == SplitFirst(text, ".")
  {
    SplitLastSpec(text, "with ");
  }

  /**
   * The challenge sentence round trip: after the last "with ", a word with
   * no full stop followed by a full stop is extracted exactly, whatever
   * precedes it and whatever follows the stop.
   */
  lemma ExtractTargetRoundTrip(prefix: string, word: string, rest: string)
    requires '.' !in word
    requires !Contains(word + "." + rest, "with ")
    ensures ExtractTarget(prefix + "with " + word + "." + rest) == word
  {
    WithNoSelfOverlap();
    assert prefix + "with " + word + "." + rest == prefix + "with " + (word + "." + rest);
    SplitLastAfter(prefix, "with ", word + "." + rest);
    assert word + "." + rest == word + ['.'] + rest;
    SplitFirstBefore(word, '.', rest);
  }
}
