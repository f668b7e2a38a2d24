/**
 * How the summarising script names its notes: the parsing half of
 * `categorize_and_name`, and the collision search of `unique_filename`.
 */
module Naming {
  import opened Wrappers
  import opened Text

  /** The fallback category. */
  const Uncategorized: string := "Uncategorized"

  /** The fallback title. */
  const Untitled: string := "Untitled"

  /** The separator the model is asked to put between category and title. */
  const FieldSeparator: string := ", "

  lemma FieldSeparatorIsBorderless()
    ensures FieldSeparator != [] && Borderless(FieldSeparator)
  {
    assert FieldSeparator[..1] == [','] && FieldSeparator[1..] == [' '];
  }

  /**
   * What `process_transcription` returns: the model's reply with surrounding
   * whitespace stripped, or "" when the call fails.
   */
  function ProcessTranscription(reply: Option<string>): (r: string)
    ensures reply.None? ==> r == ""
    ensures reply.Some? ==> r == Strip(reply.value)
    ensures r == [] || (!IsSpace(r[0]) && !IsSpace(r[|r| - 1]))
  {
    if reply.Some? then Strip(reply.value) else ""
  }

  /**
   * `categorize_and_name` once the model has answered (`Some`) or the call has raised
   * (`None`): the stripped reply is split on ", "; with at least two fields the first is
   * the category, kept only if it is an allowed one, and the second is the title; any
   * further fields are dropped. Anything else falls back to the sentinels.
   */
  function CategorizeAndName(reply: Option<string>, allowed: seq<string>): (r: (string, string))
    ensures r.0 in allowed || r.0 == Uncategorized
    ensures reply.None? ==> r == (Uncategorized, Untitled)
  {
    match reply
    case None => (Uncategorized, Untitled)
    case Some(output) =>
      var fields := Split(Strip(output), FieldSeparator);
      if |fields| >= 2 then
        (if fields[0] in allowed then fields[0] else Uncategorized, fields[1])
      else (Uncategorized, Untitled)
  }

  /** A reply without the ", " separator gives the sentinel category and title. */
  lemma MalformedReplyFallsBack(output: string, allowed: seq<string>)
    requires !Contains(Strip(output), FieldSeparator)
    ensures CategorizeAndName(Some(output), allowed) == (Uncategorized, Untitled)
  {
    assert |Split(Strip(output), FieldSeparator)| == 1;
  }

  /**
   * A well-formed reply "Category, Title[, more...]" parses back to that title, and to
   * that category when it is an allowed folder and "Uncategorized" otherwise, whatever
   * fields follow.
   */
  lemma {:induction false} ParseRoundTrip(output: string, category: string, title: string, more: seq<string>, allowed: seq<string>)
    requires !Contains(category, FieldSeparator) && !Contains(title, FieldSeparator)
    requires forall k :: 0 <= k < |more| ==> !Contains(more[k], FieldSeparator)
    requires Strip(output) == Join([category, title] + more, FieldSeparator)
    ensures CategorizeAndName(Some(output), allowed)
      == (if category in allowed then category else Uncategorized, title)
  {
    var fields := [category, title] + more;
    FieldSeparatorIsBorderless();
    forall k | 0 <= k < |fields| ensures !Contains(fields[k], FieldSeparator) {
      if k >= 2 { assert fields[k] == more[k - 2]; }
    }
    SplitJoin(fields, FieldSeparator);
  }

  /** The name `unique_filename` tries at step `counter`: `f"{base}_{counter}{ext}"`. */
  function Candidate(base: string, ext: string, counter: nat): string {
    base + "_" + NatToString(counter) + ext
  }

  function Max(a: nat, b: nat): nat { if a < b then b else a }

  /** An upper bound on the length of the names in a finite set. */
  ghost function MaxLength(names: set<string>): (m: nat)
    ensures forall x :: x in names ==> |x| <= m
    decreases |names|
  {
    if names == {} then 0
    else
      var x :| x in names;
      Max(|x|, MaxLength(names - {x}))
  }

  /** A counter from which every candidate is longer than any existing name. */
  ghost function SearchBound(existing: set<string>): (b: nat)
    ensures b >= 1
  {
    Pow10(MaxLength(existing))
  }

  /** Candidates at or past the search bound are free, so the search ends. */
  lemma FarCandidateIsFree(existing: set<string>, base: string, ext: string, counter: nat)
    ensures counter >= SearchBound(existing) ==> Candidate(base, ext, counter) !in existing
  {
    if counter >= SearchBound(existing) {
      LongNumeral(counter, MaxLength(existing));
    }
  }

  /** The first counter from `counter` on whose candidate is free. */
  function FirstFreeCounter(existing: set<string>, base: string, ext: string, counter: nat): (r: nat)
    requires counter <= SearchBound(existing)
    ensures counter <= r <= SearchBound(existing)
    ensures Candidate(base, ext, r) !in existing
    ensures forall j :: counter <= j < r ==> Candidate(base, ext, j) in existing
    decreases SearchBound(existing) - counter
  {
    FarCandidateIsFree(existing, base, ext, counter);
    if Candidate(base, ext, counter) !in existing then counter
    else FirstFreeCounter(existing, base, ext, counter + 1)
  }

  /**
   * What `unique_filename` returns: the name itself when it is free, otherwise
   * `base_k + ext` for the least `k >= 1` that is free.
   */
  function UniqueName(existing: set<string>, filename: string): (r: string)
    ensures r !in existing
    ensures filename !in existing ==> r == filename
    ensures filename in existing ==> exists k :: k >= 1 && IsFirstFree(existing, filename, k) && r == Candidate(SplitExt(filename).0, SplitExt(filename).1, k)
  {
    var (base, ext) := SplitExt(filename);
    if filename !in existing then filename
    else
      var k := FirstFreeCounter(existing, base, ext, 1);
      assert IsFirstFree(existing, filename, k);
      Candidate(base, ext, k)
  }

  /** The first free counter is unique. */
  lemma FirstFreeIsUnique(existing: set<string>, filename: string, k: nat, m: nat)
    requires IsFirstFree(existing, filename, k) && IsFirstFree(existing, filename, m)
    ensures k == m
  {
  }

  /** A taken name is renamed with its first free counter. */
  lemma FirstFreeGivesName(existing: set<string>, filename: string, k: nat)
    requires filename in existing && IsFirstFree(existing, filename, k)
    ensures UniqueName(existing, filename) == Candidate(SplitExt(filename).0, SplitExt(filename).1, k)
  {
    var m :| m >= 1 && IsFirstFree(existing, filename, m)
      && UniqueName(existing, filename) == Candidate(SplitExt(filename).0, SplitExt(filename).1, m);
    FirstFreeIsUnique(existing, filename, k, m);
  }

  /** Counter `k >= 1` gives the first free candidate for `filename`. */
  predicate IsFirstFree(existing: set<string>, filename: string, k: nat) {
    var (base, ext) := SplitExt(filename);
    && k >= 1
    && Candidate(base, ext, k) !in existing
    && forall j :: 1 <= j < k ==> Candidate(base, ext, j) in existing
  }

  /**
   * `unique_filename(folder, filename)` over the set of names that exist in the folder:
   * increment the counter until `base_counter + ext` is not taken.
   */
  method UniqueFilename(existing: set<string>, filename: string) returns (name: string)
    ensures name !in existing
    ensures name == UniqueName(existing, filename)
  {
    var (base, ext) := SplitExt(filename);
    var counter := 1;
    name := filename;
    while name in existing
      invariant 1 <= counter <= SearchBound(existing) + 1
      invariant counter == 1 ==> name == filename
      invariant counter > 1 ==> filename in existing && name == Candidate(base, ext, counter - 1)
      invariant forall j :: 1 <= j < counter - 1 ==> Candidate(base, ext, j) in existing
      decreases SearchBound(existing) + 1 - counter
    {
      FarCandidateIsFree(existing, base, ext, counter - 1);
      forall j | 1 <= j < counter
        ensures Candidate(base, ext, j) in existing
      {
        if j == counter - 1 {
          assert name == Candidate(base, ext, j);
        }
      }
      name := Candidate(base, ext, counter);
      counter := counter + 1;
    }
    if counter > 1 {
      assert IsFirstFree(existing, filename, counter - 1);
      FirstFreeGivesName(existing, filename, counter - 1);
    }
  }

  /** "X.md" in a folder holding "X.md" becomes "X_1.md", and "X_2.md" when that is taken too. */
  lemma CollisionSuffixes()
    ensures UniqueName({"X.md"}, "X.md") == "X_1.md"
    ensures UniqueName({"X.md", "X_1.md"}, "X.md") == "X_2.md"
    ensures UniqueName({"Y.md"}, "X.md") == "X.md"
  {
    assert RFind("X.md", '/') == -1;
    assert RFind("X.md", '.') == 1;
    assert "X.md"[0] != '.';
    assert "X.md"[..1] == "X" && "X.md"[1..] == ".md";
    assert SplitExt("X.md") == ("X", ".md");
    assert NatToString(1) == "1" && NatToString(2) == "2";
    assert Candidate("X", ".md", 1) == "X_1.md";
    assert Candidate("X", ".md", 2) == "X_2.md";
    assert IsFirstFree({"X.md"}, "X.md", 1);
    assert IsFirstFree({"X.md", "X_1.md"}, "X.md", 2);
    var k :| k >= 1 && IsFirstFree({"X.md"}, "X.md", k) && UniqueName({"X.md"}, "X.md") == Candidate("X", ".md", k);
    FirstFreeIsUnique({"X.md"}, "X.md", k, 1);
    var m :| m >= 1 && IsFirstFree({"X.md", "X_1.md"}, "X.md", m) && UniqueName({"X.md", "X_1.md"}, "X.md") == Candidate("X", ".md", m);
    FirstFreeIsUnique({"X.md", "X_1.md"}, "X.md", m, 2);
  }
}
