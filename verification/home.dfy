/**
 * The notes page's derived lists and the records it builds: the search
 * filter, the sort on a copy of the filtered list, and the notes that the
 * complete and edit actions send.
 *
 * `new Date(x)` as a number is an oracle `dateOf`; `localeCompare` on titles
 * is an oracle `titleRank` (a smaller rank sorts first).
 */
module Home {
  import opened Wrappers
  import opened Text
  import opened Records
  import Seqs

  /** `note?.title`, when it is a string. */
  function Title(n: Record): Option<string>
  {
    match Get(n, "title")
    case Str(s) => Some(s)
    case _ => None
  }

  predicate MatchesSearch(n: Record, searchTerm: string)
  {
    Title(n).Some? && ContainsIgnoringCase(Title(n).value, searchTerm)
  }

  /**
   * `filteredNotes`: the notes whose lower-cased title includes the lower-cased
   * search term, in list order; notes without a title are dropped and an empty
   * term keeps every titled note.
   */
  function FilteredNotes(notes: seq<Record>, searchTerm: string): (r: seq<Record>)
    ensures |r| <= |notes| && multiset(r) <= multiset(notes)
    ensures forall n :: n in r <==> n in notes && Title(n).Some? && ContainsIgnoringCase(Title(n).value, searchTerm)
    ensures searchTerm == "" ==> forall n :: n in r <==> n in notes && Title(n).Some?
  {
    assert forall s: string :: IndexOf(s, "") == Some(0) by {
      forall s: string ensures IndexOf(s, "") == Some(0) {
        assert "" <= s;
      }
    }
    assert ToLower("") == "";
    Seqs.Filter(notes, n => MatchesSearch(n, searchTerm))
  }

  /** Filtering a concatenation filters each part: the kept notes stay in list order, every copy with them. */
  lemma FilteredNotesConcat(a: seq<Record>, b: seq<Record>, searchTerm: string)
    ensures FilteredNotes(a + b, searchTerm) == FilteredNotes(a, searchTerm) + FilteredNotes(b, searchTerm)
  {
    Seqs.FilterConcat(a, b, n => MatchesSearch(n, searchTerm));
  }

  /** A single note is kept exactly when it matches. */
  lemma FilteredNote(n: Record, searchTerm: string)
    ensures FilteredNotes([n], searchTerm) == if MatchesSearch(n, searchTerm) then [n] else []
  {
    assert [n][1..] == [];
  }

  /** The list is in descending order of `key`. */
  ghost predicate Descending<T>(xs: seq<T>, key: T -> int)
  {
    forall i, j :: 0 <= i < j < |xs| ==> key(xs[i]) >= key(xs[j])
  }

  /** Puts `x` in front of the first element whose key is not larger. */
  function InsertByKey<T>(x: T, ys: seq<T>, key: T -> int): (r: seq<T>)
    requires Descending(ys, key)
    ensures |r| == |ys| + 1
    ensures r[0] == x || (|ys| > 0 && r[0] == ys[0])
    ensures Descending(r, key)
  {
    if |ys| == 0 then [x]
    else if key(x) >= key(ys[0]) then [x] + ys
    else
      var rest := InsertByKey(x, ys[1..], key);
      assert ys == [ys[0]] + ys[1..];
      HeadBound(ys[0], rest, key);
      [ys[0]] + rest
  }

  /** An element whose key bounds the head of a descending list can be put in front of it. */
  lemma HeadBound<T>(y: T, rest: seq<T>, key: T -> int)
    requires Descending(rest, key)
    requires |rest| > 0 ==> key(y) >= key(rest[0])
    ensures Descending([y] + rest, key)
  {
    var l := [y] + rest;
    forall i, j | 0 <= i < j < |l| ensures key(l[i]) >= key(l[j]) {
      if i == 0 {
        assert l[j] == rest[j - 1];
        if j > 1 {
          assert key(rest[0]) >= key(rest[j - 1]);
        }
      } else {
        assert l[i] == rest[i - 1] && l[j] == rest[j - 1];
      }
    }
  }

  /** Insertion adds exactly the one element. */
  lemma {:induction false} InsertPermutes<T>(x: T, ys: seq<T>, key: T -> int)
    requires Descending(ys, key)
    ensures multiset(InsertByKey(x, ys, key)) == multiset(ys) + multiset{x}
    decreases |ys|
  {
    if |ys| > 0 && key(x) < key(ys[0]) {
      InsertPermutes(x, ys[1..], key);
      assert ys == [ys[0]] + ys[1..];
    }
  }

  /** A stable sort by descending key, as `Array.prototype.sort` with a comparator on keys. */
  function SortByKey<T>(xs: seq<T>, key: T -> int): (r: seq<T>)
    ensures |r| == |xs|
    ensures Descending(r, key)
  {
    if |xs| == 0 then []
    else
      assert xs == [xs[0]] + xs[1..];
      InsertByKey(xs[0], SortByKey(xs[1..], key), key)
  }

  /** The sorted list is a permutation of the input. */
  lemma {:induction false} SortPermutes<T>(xs: seq<T>, key: T -> int)
    ensures multiset(SortByKey(xs, key)) == multiset(xs)
    decreases |xs|
  {
    if |xs| > 0 {
      var sortedTail := SortByKey(xs[1..], key);
      SortPermutes(xs[1..], key);
      InsertPermutes(xs[0], sortedTail, key);
      assert SortByKey(xs, key) == InsertByKey(xs[0], sortedTail, key);
      ConsPermutes(xs, sortedTail, SortByKey(xs, key));
    }
  }

  lemma ConsPermutes<T>(xs: seq<T>, tail: seq<T>, whole: seq<T>)
    requires |xs| > 0 && multiset(tail) == multiset(xs[1..])
    requires multiset(whole) == multiset(tail) + multiset{xs[0]}
    ensures multiset(whole) == multiset(xs)
  {
    assert xs == [xs[0]] + xs[1..];
  }

  /** The elements with key `k`, in order. */
  function WithKey<T>(xs: seq<T>, key: T -> int, k: int): seq<T>
  {
    if |xs| == 0 then [] else (if key(xs[0]) == k then [xs[0]] else []) + WithKey(xs[1..], key, k)
  }

  lemma {:induction false} InsertStable<T>(x: T, ys: seq<T>, key: T -> int, k: int)
    requires Descending(ys, key)
    ensures WithKey(InsertByKey(x, ys, key), key, k) == (if key(x) == k then [x] else []) + WithKey(ys, key, k)
    decreases |ys|
  {
    var xPart := if key(x) == k then [x] else [];
    if |ys| == 0 {
      WithKeyCons(x, [], key, k);
    } else if key(x) >= key(ys[0]) {
      WithKeyCons(x, ys, key, k);
    } else {
      DescendingTail(ys, key);
      var rest := InsertByKey(x, ys[1..], key);
      var yPart := if key(ys[0]) == k then [ys[0]] else [];
      InsertStable(x, ys[1..], key, k);
      assert InsertByKey(x, ys, key) == [ys[0]] + rest;
      WithKeyCons(ys[0], rest, key, k);
      WithKeyCons(ys[0], ys[1..], key, k);
      assert ys == [ys[0]] + ys[1..];
      // x goes after ys[0], whose key is larger, so at most one of them has key k.
      SwapPart(WithKey(InsertByKey(x, ys, key), key, k), WithKey(rest, key, k),
               WithKey(ys, key, k), WithKey(ys[1..], key, k), xPart, yPart);
    }
  }

  lemma SwapPart<T>(whole: seq<T>, afterHead: seq<T>, original: seq<T>, tail: seq<T>, xPart: seq<T>, yPart: seq<T>)
    requires whole == yPart + afterHead && afterHead == xPart + tail && original == yPart + tail
    requires xPart == [] || yPart == []
    ensures whole == xPart + original
  {
  }

  lemma DescendingTail<T>(ys: seq<T>, key: T -> int)
    requires |ys| > 0 && Descending(ys, key)
    ensures Descending(ys[1..], key)
  {
  }

  lemma WithKeyCons<T>(h: T, t: seq<T>, key: T -> int, k: int)
    ensures WithKey([h] + t, key, k) == (if key(h) == k then [h] else []) + WithKey(t, key, k)
  {
    assert ([h] + t)[1..] == t;
  }

  /** Stability: the elements of any one key keep their relative order. */
  lemma {:induction false} SortStable<T>(xs: seq<T>, key: T -> int, k: int)
    ensures WithKey(SortByKey(xs, key), key, k) == WithKey(xs, key, k)
    decreases |xs|
  {
    if |xs| > 0 {
      SortStable(xs[1..], key, k);
      InsertStable(xs[0], SortByKey(xs[1..], key), key, k);
    }
  }

  /** The comparator of `sortedNotes` for each `sortBy`, as a descending key. */
  function SortKey(sortBy: string, dateOf: Value -> int, titleRank: string -> int): Record -> int
  {
    if sortBy == "title" then n => -titleRank(Title(n).GetOr(""))
    else if sortBy == "completed" then n => if Truthy(Get(n, "completed")) then 1 else 0
    else if sortBy == "modified" then n => dateOf(Get(n, "lastModified"))
    else n => dateOf(Get(n, "created_at"))
  }

  /** `sortedNotes`: a sorted copy of the filtered list. */
  function SortedNotes(filtered: seq<Record>, sortBy: string, dateOf: Value -> int, titleRank: string -> int): (r: seq<Record>)
    ensures multiset(r) == multiset(filtered)
    ensures sortBy == "completed" ==>
      forall i, j :: 0 <= i < j < |r| && Truthy(Get(r[j], "completed")) ==> Truthy(Get(r[i], "completed"))
    ensures sortBy == "modified" ==>
      forall i, j :: 0 <= i < j < |r| ==> dateOf(Get(r[i], "lastModified")) >= dateOf(Get(r[j], "lastModified"))
    ensures sortBy != "title" && sortBy != "completed" && sortBy != "modified" ==>
      forall i, j :: 0 <= i < j < |r| ==> dateOf(Get(r[i], "created_at")) >= dateOf(Get(r[j], "created_at"))
    ensures sortBy == "title" ==>
      forall i, j :: 0 <= i < j < |r| ==> titleRank(Title(r[i]).GetOr("")) <= titleRank(Title(r[j]).GetOr(""))
  {
    var key := SortKey(sortBy, dateOf, titleRank);
    var r := SortByKey(filtered, key);
    SortPermutes(filtered, key);
    assert forall i, j :: 0 <= i < j < |r| ==> key(r[i]) >= key(r[j]);
    r
  }

  /** `completeNote`: the note with `completed` negated and `lastModified` now; nothing else changes. */
  function CompletedRecord(note: Record, now: Value): (r: Record)
    ensures Get(r, "completed") == Bool(!Truthy(Get(note, "completed")))
    ensures Get(r, "lastModified") == now
    ensures forall k :: k != "completed" && k != "lastModified" ==> Get(r, k) == Get(note, k)
  {
    note + map["completed" := Bool(!Truthy(Get(note, "completed"))), "lastModified" := now]
  }

  /** `updateNote`: the form values, with `completed` carried over from the selected note and `lastModified` now. */
  function UpdatedRecord(values: Record, selectedNote: Option<Record>, now: Value): (r: Record)
    ensures Get(r, "completed") == (if selectedNote.Some? then Get(selectedNote.value, "completed") else Undefined)
    ensures Get(r, "lastModified") == now
    ensures forall k :: k != "completed" && k != "lastModified" ==> Get(r, k) == Get(values, k)
  {
    var completed := if selectedNote.Some? then Get(selectedNote.value, "completed") else Undefined;
    values + map["completed" := completed, "lastModified" := now]
  }
}
