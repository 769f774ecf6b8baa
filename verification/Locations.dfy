/** Adding and removing locations. */
module Locations {
  import opened Ids
  import opened Store
  import opened Queries

  predicate ValidLocation(name: string, capacity: int) {
    name != "" && 1 <= capacity
  }

  /** after is t with a new location, numbered one above the highest, or 1 if it is the first. */
  ghost predicate LocationAdded(t: Tables, l: LocationID, after: Tables) {
    && after == t.(locations := t.locations + {l})
    && (forall m :: m in t.locations ==> m < l)
    && (if t.locations == {} then l == 1 else l - 1 in t.locations)
  }

  /** Scheduled into, by some row. */
  predicate HoldsRows(t: Tables, l: LocationID) {
    exists k :: k in t.schedule && k.1 == l
  }

  lemma AddLocationIsFine(t: Database, l: LocationID)
    ensures Integrity(t.(locations := t.locations + {l}))
  {}

  lemma DropLocationIsFine(t: Database, l: LocationID)
    ensures Integrity(t.(locations := t.locations - {l})) <==> !HoldsRows(t, l)
  {}

  /** The highest location id, or 0 if there is none. */
  method MaxLocation(t: Tables) returns (m: LocationID)
    ensures forall l :: l in t.locations ==> l <= m
    ensures if t.locations == {} then m == 0 else m in t.locations
  {
    var r := SelectOrdered(t.locations, (a, b) => a <= b);
    if t.locations == {} {
      return 0;
    }
    ListLength(r, t.locations);
    assert r[|r| - 1] in r;
    return r[|r| - 1];
  }

  method NewLocation(db: EventStore, name: string, capacity: int) returns (r: Outcome<LocationID>)
    modifies db
    ensures r.Ok? <==> ValidLocation(name, capacity)
    ensures r.Ok? ==> LocationAdded(old(db.t), r.value, db.t)
    ensures r.Ok? <==> name != "" && 0 < capacity
    ensures r.Ok? ==> db.t == old(db.t).(locations := old(db.t).locations + {r.value})
    ensures r.Ok? ==> forall m :: m in old(db.t).locations ==> m < r.value
    ensures r.Ok? ==> if old(db.t).locations == {} then r.value == 1 else r.value - 1 in old(db.t).locations
    ensures r.Err? ==> r.error == Invalid && db.t == old(db.t)
  {
    if !ValidLocation(name, capacity) {
      return Err(Invalid);
    }
    var highest := MaxLocation(db.t);
    AddLocationIsFine(db.t, highest + 1);
    hide Integrity;
    db.t := db.t.(locations := db.t.locations + {highest + 1});
    return Ok(highest + 1);
  }

  /** A location that the schedule uses cannot be deleted. */
  method DeleteLocation(db: EventStore, l: LocationID) returns (r: Outcome<()>)
    modifies db
    ensures r.Ok? <==> l in old(db.t).locations && !HoldsRows(old(db.t), l)
    ensures r.Ok? <==> l in old(db.t).locations && forall k :: k in old(db.t).schedule ==> k.1 != l
    ensures r.Err? ==> r.error == if l in old(db.t).locations then ConstraintViolated else NotFound
    ensures r.Err? ==> db.t == old(db.t)
    ensures r.Ok? ==> db.t == old(db.t).(locations := old(db.t).locations - {l})
  {
    DropLocationIsFine(db.t, l);
    UsedLocationsExist(db.t, l);
    hide Integrity;
    var tx := new Transaction(db.t);
    var found := l in tx.t.locations;
    var ok := tx.Exec(tx.t.(locations := tx.t.locations - {l}));
    if !ok {
      return Err(ConstraintViolated);
    }
    if !found {
      return Err(NotFound);
    }
    db.t := tx.t;
    return Ok(());
  }

  lemma UsedLocationsExist(t: Database, l: LocationID)
    ensures HoldsRows(t, l) ==> l in t.locations
  {}
}
