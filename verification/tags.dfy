/** The comma-separated tag field shared by the task form and the edit form:
    `raw.split(",").map(t => t.trim()).filter(Boolean)`, and its inverse
    `tags.join(", ")`. */
module Tags {
  import opened Seqs
  import opened Text

  /** The shape every parsed tag has. */
  predicate WellFormedTag(t: string) {
    t != "" && IsTrimmed(t) && ',' !in t
  }

  predicate NonEmpty(t: string) {
    t != ""
  }

  /** Each piece trimmed, in place. */
  function TrimAll(parts: seq<string>): (r: seq<string>)
    ensures |r| == |parts|
    ensures forall k :: 0 <= k < |parts| ==> r[k] == Trim(parts[k])
  {
    seq(|parts|, k requires 0 <= k < |parts| => Trim(parts[k]))
  }

  /** Parse the tag field of a form. */
  function ParseTags(raw: string): (tags: seq<string>)
    ensures forall k :: 0 <= k < |tags| ==> WellFormedTag(tags[k])
  {
    var parts := Split(raw, ',');
    var trimmed := TrimAll(parts);
    var tags := Keep(trimmed, NonEmpty);
    assert forall k :: 0 <= k < |trimmed| ==> ',' !in trimmed[k] by {
      forall k | 0 <= k < |trimmed|
        ensures ',' !in trimmed[k]
      {
        assert ',' !in parts[k];
        TrimOmits(parts[k], ',');
      }
    }
    tags
  }

  /** A single comma-free piece yields its trimmed self, or nothing if blank. */
  lemma ParseTagsPiece(s: string)
    requires ',' !in s
    ensures ParseTags(s) == if IsBlank(s) then [] else [Trim(s)]
  {
    assert Split(s, ',') == [s];
    assert TrimAll([s]) == [Trim(s)];
  }

  /** Tags parsed from `x + "," + y` are the tags of `x` followed by the tags of `y`:
      input order is kept. */
  lemma ParseTagsConcat(x: string, y: string)
    ensures ParseTags(x + "," + y) == ParseTags(x) + ParseTags(y)
  {
    assert x + "," + y == x + [','] + y;
    SplitConcat(x, ',', y);
    var px, py := Split(x, ','), Split(y, ',');
    assert TrimAll(px + py) == TrimAll(px) + TrimAll(py);
    KeepConcat(TrimAll(px), TrimAll(py), NonEmpty);
  }

  /** Every character is a comma or whitespace. */
  predicate SeparatorsOnly(raw: string) {
    forall i :: 0 <= i < |raw| ==> raw[i] == ',' || IsSpace(raw[i])
  }

  /** A field made of commas and whitespace only parses to no tags. */
  lemma {:induction false} ParseTagsOnlySeparators(raw: string)
    requires SeparatorsOnly(raw)
    ensures ParseTags(raw) == []
    decreases |raw|
  {
    if ',' in raw {
      var i := IndexOf(raw, ',');
      ParseTagsAtComma(raw, i);
      SeparatorsAround(raw, i);
      ParseTagsPiece(raw[..i]);
      ParseTagsOnlySeparators(raw[i + 1..]);
    } else {
      ParseTagsPiece(raw);
    }
  }

  /** Before the first comma of such a field there is only whitespace, and after any comma
      there are still only separators. */
  lemma SeparatorsAround(raw: string, i: nat)
    requires SeparatorsOnly(raw) && i < |raw| && ',' !in raw[..i]
    ensures IsBlank(raw[..i]) && SeparatorsOnly(raw[i + 1..])
  {
    var before, after := raw[..i], raw[i + 1..];
    forall j | 0 <= j < |before| ensures IsSpace(before[j]) {
      assert before[j] == raw[j];
    }
    forall j | 0 <= j < |after| ensures after[j] == ',' || IsSpace(after[j]) {
      assert after[j] == raw[i + 1 + j];
    }
  }

  /** Parsing splits at any comma of the field. */
  lemma ParseTagsAtComma(raw: string, i: nat)
    requires i < |raw| && raw[i] == ','
    ensures ParseTags(raw) == ParseTags(raw[..i]) + ParseTags(raw[i + 1..])
  {
    assert raw == raw[..i] + "," + raw[i + 1..];
    ParseTagsConcat(raw[..i], raw[i + 1..]);
  }

  /** Trimming removes any blank prefix in front of a trimmed, non-empty string. */
  lemma {:induction false} TrimBlankPrefix(ws: string, t: string)
    requires IsBlank(ws) && t != "" && IsTrimmed(t)
    ensures Trim(ws + t) == t
    decreases |ws|
  {
    if |ws| == 0 {
      assert ws + t == t;
      TrimTrimmed(t);
    } else {
      assert (ws + t)[1..] == ws[1..] + t;
      TrimBlankPrefix(ws[1..], t);
    }
  }

  /** One well-formed tag behind a blank prefix parses to itself. */
  lemma ParseOneTag(ws: string, t: string)
    requires IsBlank(ws) && ',' !in ws && WellFormedTag(t)
    ensures ParseTags(ws + t) == [t]
  {
    assert ',' !in ws + t;
    TrimBlankPrefix(ws, t);
    ParseTagsPiece(ws + t);
    assert !IsBlank(ws + t) by { assert Trim(ws + t) != ""; }
  }

  /** A separator the parser splits on cleanly: one comma, then whitespace only;
      `", "`, what the edit form joins with, is one. */
  predicate IsSeparator(sep: string) {
    |sep| >= 1 && sep[0] == ',' && IsBlank(sep[1..])
  }

  /** A separator is its comma followed by a blank that starts the next piece. */
  lemma RegroupSeparator(ws: string, t: string, sep: string, rest: string)
    requires |sep| >= 1
    ensures ws + (t + sep + rest) == (ws + t) + [sep[0]] + (sep[1..] + rest)
  {
    assert sep == [sep[0]] + sep[1..];
  }

  /** One step of the round trip: a well-formed tag, then the separator, then more. */
  lemma ParseTagThenRest(ws: string, t: string, sep: string, rest: string, tail: seq<string>)
    requires IsBlank(ws) && ',' !in ws && WellFormedTag(t) && IsSeparator(sep)
    requires ParseTags(sep[1..] + rest) == tail
    ensures ParseTags(ws + (t + sep + rest)) == [t] + tail
  {
    RegroupSeparator(ws, t, sep, rest);
    assert [sep[0]] == ",";
    ParseTagsConcat(ws + t, sep[1..] + rest);
    ParseOneTag(ws, t);
  }

  /** The round trip behind a blank prefix, the shape each later tag has once the
      comma before it is split off. */
  lemma {:induction false} ParseJoinAfterBlank(ws: string, sep: string, tags: seq<string>)
    requires IsBlank(ws) && ',' !in ws && IsSeparator(sep)
    requires forall k :: 0 <= k < |tags| ==> WellFormedTag(tags[k])
    ensures ParseTags(ws + Join(tags, sep)) == tags
    decreases |tags|
  {
    if |tags| == 0 {
      assert ws + Join(tags, sep) == ws;
      ParseTagsPiece(ws);
    } else if |tags| == 1 {
      assert ws + Join(tags, sep) == ws + tags[0];
      assert WellFormedTag(tags[0]);
      ParseOneTag(ws, tags[0]);
    } else {
      var t, rest := tags[0], Join(tags[1..], sep);
      assert tags == [t] + tags[1..];
      JoinCons(t, tags[1..], sep);
      var blank := sep[1..];
      assert ',' !in blank by { assert forall i :: 0 <= i < |blank| ==> IsSpace(blank[i]); }
      ParseJoinAfterBlank(blank, sep, tags[1..]);
      ParseTagThenRest(ws, t, sep, rest, tags[1..]);
    }
  }

  /** Joining well-formed tags with any separator and parsing the result gives the
      tags back. */
  lemma ParseJoinWith(tags: seq<string>, sep: string)
    requires IsSeparator(sep)
    requires forall k :: 0 <= k < |tags| ==> WellFormedTag(tags[k])
    ensures ParseTags(Join(tags, sep)) == tags
  {
    var none := sep[..0];
    ParseJoinAfterBlank(none, sep, tags);
    assert none + Join(tags, sep) == Join(tags, sep);
  }

  /** Joining well-formed tags with `", "` and parsing the result gives the tags back. */
  lemma {:induction false} ParseJoin(tags: seq<string>)
    requires forall k :: 0 <= k < |tags| ==> WellFormedTag(tags[k])
    ensures ParseTags(Join(tags, ", ")) == tags
  {
    ParseJoinWith(tags, ", ");
  }

  /** Reparsing the joined form of parsed tags changes nothing. */
  lemma ParseTagsStable(raw: string)
    ensures ParseTags(Join(ParseTags(raw), ", ")) == ParseTags(raw)
  {
    ParseJoin(ParseTags(raw));
  }
}
