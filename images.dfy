/** The one-off repair of medicine image paths saved with Windows separators:
    every backslash becomes a forward slash. */
module ImagePaths {
  import opened Models
  import opened Strings
  import opened Database
  import Queries

  predicate NoBackslash(image: Option<string>) {
    image.None? || '\\' !in image.value
  }

  /** The repaired path: only a non-empty path holding a backslash is rewritten. */
  function FixedImage(image: Option<string>): Option<string> {
    if image.Some? && image.value != [] && '\\' in image.value then Some(ReplaceChar(image.value, '\\', '/'))
    else image
  }

  /** After the repair there is no backslash; a path without one, a missing
      path and an empty path are left as they were; each backslash becomes a
      slash in its place and every other character keeps its position. */
  lemma FixedImageSpec(image: Option<string>)
    ensures NoBackslash(FixedImage(image))
    ensures NoBackslash(image) ==> FixedImage(image) == image
    ensures FixedImage(image).None? <==> image.None?
    ensures image.Some? ==> |FixedImage(image).value| == |image.value|
    ensures image.Some? ==> forall i :: 0 <= i < |image.value| ==>
              FixedImage(image).value[i] == if image.value[i] == '\\' then '/' else image.value[i]
  {
    if image.Some? && image.value != [] && '\\' in image.value {
      var r := ReplaceChar(image.value, '\\', '/');
      assert forall i :: 0 <= i < |r| ==> r[i] != '\\';
    }
  }

  /** Repairing twice is repairing once. */
  lemma FixedImageIdempotent(image: Option<string>)
    ensures FixedImage(FixedImage(image)) == FixedImage(image)
  {
    FixedImageSpec(image);
    FixedImageSpec(FixedImage(image));
  }

  function FixMedicine(m: Medicine): Medicine {
    m.(image := FixedImage(m.image))
  }

  /** One medicine of the script's loop: its image is rewritten when it holds a backslash. */
  method FixOne(db: Db, id: Id)
    requires db.Valid() && id in db.medicines
    modifies db
    ensures db.Valid() && db.OnlyMedicinesChanged()
    ensures db.medicines == old(db.medicines)[id := FixMedicine(old(db.medicines)[id])]
  {
    var m := db.medicines[id];
    if m.image.Some? && m.image.value != [] && '\\' in m.image.value {
      db.PutMedicine(id, m.(image := Some(ReplaceChar(m.image.value, '\\', '/'))));
    } else {
      assert db.medicines == db.medicines[id := FixMedicine(m)];
    }
  }

  /** The script: every medicine in turn, its image rewritten where needed. */
  method FixImagePaths(db: Db)
    requires db.Valid()
    modifies db
    ensures db.Valid() && db.OnlyMedicinesChanged()
    ensures db.medicines.Keys == old(db.medicines).Keys
    ensures forall id :: id in old(db.medicines) ==> db.medicines[id] == FixMedicine(old(db.medicines)[id])
    ensures forall id :: id in db.medicines ==> NoBackslash(db.medicines[id].image)
  {
    ghost var meds0 := db.medicines;
    ghost var done: set<Id> := {};
    var ids := Queries.IdsAscending(db.medicines.Keys, db.nextMedicineId);
    var i := 0;
    while i < |ids|
      invariant 0 <= i <= |ids|
      invariant db.Valid() && db.OnlyMedicinesChanged()
      invariant forall j :: 0 <= j < i ==> ids[j] in done
      invariant forall j :: i <= j < |ids| ==> ids[j] !in done
      invariant db.medicines == FixedSoFar(meds0, done)
    {
      var id := ids[i];
      FixedSoFarStep(meds0, done, id);
      FixOne(db, id);
      done := done + {id};
      i := i + 1;
    }
    FixedAll(meds0, ids, done);
  }

  /** The table part way through the loop: the visited medicines repaired, the others as they were. */
  function FixedSoFar(meds0: map<Id, Medicine>, done: set<Id>): map<Id, Medicine> {
    map id | id in meds0 :: if id in done then FixMedicine(meds0[id]) else meds0[id]
  }

  /** Starting from nothing visited is the original table, and visiting one more repairs it. */
  lemma FixedSoFarStep(meds0: map<Id, Medicine>, done: set<Id>, id: Id)
    requires id in meds0 && id !in done
    ensures FixedSoFar(meds0, {}) == meds0
    ensures id in FixedSoFar(meds0, done)
    ensures FixedSoFar(meds0, done)[id := FixMedicine(FixedSoFar(meds0, done)[id])] == FixedSoFar(meds0, done + {id})
  {
  }

  /** After the loop every medicine was visited, so every image is repaired. */
  lemma FixedAll(meds0: map<Id, Medicine>, ids: seq<Id>, done: set<Id>)
    requires forall id :: id in meds0 ==> id in ids
    requires forall j :: 0 <= j < |ids| ==> ids[j] in done
    ensures FixedSoFar(meds0, done).Keys == meds0.Keys
    ensures forall id :: id in meds0 ==> FixedSoFar(meds0, done)[id] == FixMedicine(meds0[id])
    ensures forall id :: id in FixedSoFar(meds0, done) ==> NoBackslash(FixedSoFar(meds0, done)[id].image)
  {
    forall id | id in meds0 ensures NoBackslash(FixMedicine(meds0[id]).image) {
      FixedImageSpec(meds0[id].image);
    }
  }

  /** A second run of the script changes nothing. */
  lemma SecondPassChangesNothing(m: Medicine)
    ensures FixMedicine(FixMedicine(m)) == FixMedicine(m)
  {
    FixedImageIdempotent(m.image);
  }
}
