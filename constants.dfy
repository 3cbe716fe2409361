/** The base-field schema every recognition result is checked against
    (receipt_recognizer/constants.py), and the notion of a missing field
    shared by the client and the external-library adapter. */
module Constants {
  import opened Values

  const SOURCE: string := "source"
  const DESTINATION: string := "destination"
  const AMOUNT: string := "amount"
  const FEE: string := "fee"
  const DATE: string := "date"

  /** The five required fields, in schema order. */
  const BaseFields: seq<string> := [SOURCE, DESTINATION, AMOUNT, FEE, DATE]

  /** One human-readable description per base field. */
  const BaseFieldsDesc: map<string, string> := map[
    SOURCE := "Source account/card (sender)",
    DESTINATION := "Destination account/card (recipient)",
    AMOUNT := "Transaction amount in rubles",
    FEE := "Transaction fee/commission in rubles",
    DATE := "Transaction date and time"
  ]

  lemma BaseFieldsExact()
    ensures BaseFields == ["source", "destination", "amount", "fee", "date"]
    ensures |BaseFields| == 5
    ensures forall i, j | 0 <= i < j < |BaseFields| :: BaseFields[i] != BaseFields[j]
  {
  }

  lemma DescriptionsCoverSchema()
    ensures BaseFieldsDesc.Keys == set f | f in BaseFields
    ensures |BaseFieldsDesc| == |BaseFields|
    ensures BaseFieldsDesc[SOURCE] == "Source account/card (sender)"
    ensures BaseFieldsDesc[AMOUNT] == "Transaction amount in rubles"
  {
    BaseFieldsExact();
    assert BaseFieldsDesc.Keys == {SOURCE, DESTINATION, AMOUNT, FEE, DATE};
  }

  /** `field not in result or result[field] is None`. */
  predicate Missing(result: Dict, field: string) {
    field !in result || result[field] == Null
  }

  /** `a` is `b` with some elements left out, order kept. */
  predicate Subsequence(a: seq<string>, b: seq<string>)
    decreases |b|
  {
    if a == [] then true
    else if b == [] then false
    else if a[0] == b[0] then Subsequence(a[1..], b[1..])
    else Subsequence(a, b[1..])
  }

  /** The fields of `fields` that `result` is missing, in the order of
      `fields`: exactly the missing ones, and nothing reordered. */
  function MissingFields(result: Dict, fields: seq<string>): (r: seq<string>)
    ensures forall f :: f in r <==> f in fields && Missing(result, f)
    ensures Subsequence(r, fields)
  {
    MissingListFacts(result, fields);
    MissingList(result, fields)
  }

  /** The missing-field scan, field by field. */
  function MissingList(result: Dict, fields: seq<string>): seq<string> {
    if fields == [] then []
    else if Missing(result, fields[0]) then [fields[0]] + MissingList(result, fields[1..])
    else MissingList(result, fields[1..])
  }

  lemma {:induction false} MissingListFacts(result: Dict, fields: seq<string>)
    ensures forall f :: f in MissingList(result, fields) <==> f in fields && Missing(result, f)
    ensures Subsequence(MissingList(result, fields), fields)
  {
    if fields != [] {
      MissingListFacts(result, fields[1..]);
      assert forall f :: f in fields <==> f == fields[0] || f in fields[1..];
      var r := MissingList(result, fields);
      if Missing(result, fields[0]) {
        assert r[0] == fields[0] && r[1..] == MissingList(result, fields[1..]);
      }
    }
  }

  /** The missing fields of a concatenation are those of each part, in turn. */
  lemma {:induction false} MissingFieldsAppend(result: Dict, a: seq<string>, b: seq<string>)
    ensures MissingList(result, a + b) == MissingList(result, a) + MissingList(result, b)
  {
    if a == [] {
      assert a + b == b;
    } else {
      assert (a + b)[1..] == a[1..] + b;
      MissingFieldsAppend(result, a[1..], b);
    }
  }

  /** Checking one more field appends it exactly when it is missing. */
  lemma MissingFieldsSnoc(result: Dict, fields: seq<string>, i: nat)
    requires i < |fields|
    ensures MissingFields(result, fields[..i + 1])
         == MissingFields(result, fields[..i]) + (if Missing(result, fields[i]) then [fields[i]] else [])
  {
    assert fields[..i + 1] == fields[..i] + [fields[i]];
    MissingFieldsAppend(result, fields[..i], [fields[i]]);
    assert [fields[i]][1..] == [];
  }

  /** Nothing is missing exactly when the missing-field list is empty. */
  lemma NothingMissing(result: Dict, fields: seq<string>)
    ensures MissingFields(result, fields) == [] <==> forall f | f in fields :: !Missing(result, f)
  {
    var r := MissingFields(result, fields);
    if r != [] {
      assert r[0] in r;
    }
  }

  /** Two subsequences of a list without repeats that hold the same
      elements are equal: the missing-field list is determined by which
      fields are missing. */
  lemma {:induction false} SubsequenceUnique(a: seq<string>, b: seq<string>, fields: seq<string>)
    requires forall i, j | 0 <= i < j < |fields| :: fields[i] != fields[j]
    requires Subsequence(a, fields) && Subsequence(b, fields)
    requires forall f :: f in a <==> f in b
    ensures a == b
    decreases |fields|
  {
    if fields != [] {
      var tail := fields[1..];
      assert forall i, j | 0 <= i < j < |tail| :: tail[i] != tail[j] by {
        forall i, j | 0 <= i < j < |tail| ensures tail[i] != tail[j] {
          assert tail[i] == fields[i + 1] && tail[j] == fields[j + 1];
        }
      }
      SubsequenceIn(a, fields);
      SubsequenceIn(b, fields);
      if a != [] && a[0] == fields[0] {
        assert b != [] && b[0] == fields[0] by {
          assert fields[0] in b;
          if b != [] && b[0] != fields[0] {
            SubsequenceIn(b, tail);
          }
        }
        assert fields[0] !in tail;
        SubsequenceIn(a[1..], tail);
        SubsequenceIn(b[1..], tail);
        forall f ensures f in a[1..] <==> f in b[1..] {
          assert f in a <==> f == a[0] || f in a[1..];
          assert f in b <==> f == b[0] || f in b[1..];
        }
        SubsequenceUnique(a[1..], b[1..], tail);
        assert a == [a[0]] + a[1..] && b == [b[0]] + b[1..];
      } else {
        assert fields[0] !in a by {
          if fields[0] in a {
            assert Subsequence(a, tail);
            SubsequenceIn(a, tail);
          }
        }
        assert b == [] || b[0] != fields[0];
        SubsequenceUnique(a, b, tail);
      }
    }
  }

  lemma {:induction false} SubsequenceIn(a: seq<string>, b: seq<string>)
    requires Subsequence(a, b)
    ensures forall f | f in a :: f in b
    decreases |b|
  {
    if a != [] && b != [] {
      if a[0] == b[0] {
        SubsequenceIn(a[1..], b[1..]);
        forall f | f in a ensures f in b {
          if f != a[0] { assert f in a[1..]; }
        }
      } else {
        SubsequenceIn(a, b[1..]);
      }
    }
  }

  /** Listing every missing field in schema order: the list is empty
      exactly when nothing is missing, and it is the only ordered list of
      exactly the missing fields. */
  lemma MissingBaseFieldsDetermined(result: Dict, listed: seq<string>)
    requires Subsequence(listed, BaseFields)
    requires forall f :: f in listed <==> f in BaseFields && Missing(result, f)
    ensures listed == MissingFields(result, BaseFields)
  {
    BaseFieldsExact();
    SubsequenceUnique(listed, MissingFields(result, BaseFields), BaseFields);
  }
}
