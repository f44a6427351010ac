/** The marker popup label `"ID:<id>"` (mapper.py, line 59) and how a click on a
    marker is turned back into a ticket id (line 65). */
module Labels {
  import opened Wrappers

  /** Python's `s.split(sep)` for a one-character separator: the pieces of `s`
      between occurrences of `sep`, empty pieces included. */
  function Split(s: string, sep: char): (parts: seq<string>)
    ensures |parts| >= 1
    ensures forall k :: 0 <= k < |parts| ==> sep !in parts[k]
  {
    if s == [] then [""]
    else
      var rest := Split(s[1..], sep);
      if s[0] == sep then [""] + rest
      else [[s[0]] + rest[0]] + rest[1..]
  }

  /** The inverse of `Split`: the pieces glued back together with `sep`. */
  function Join(parts: seq<string>, sep: char): string
    requires |parts| >= 1
  {
    if |parts| == 1 then parts[0] else parts[0] + [sep] + Join(parts[1..], sep)
  }

  /** Splitting loses nothing: gluing the pieces back gives the original text. */
  lemma {:induction false} JoinSplit(s: string, sep: char)
    ensures Join(Split(s, sep), sep) == s
  {
    if s != [] {
      var rest := Split(s[1..], sep);
      JoinSplit(s[1..], sep);
      if s[0] != sep && |rest| > 1 {
        assert rest == [rest[0]] + rest[1..];
      }
    }
  }

  /** A text splits into more than one piece exactly when it holds `sep`. */
  lemma {:induction false} SplitIsSingleIff(s: string, sep: char)
    ensures |Split(s, sep)| == 1 <==> sep !in s
  {
    if s != [] {
      SplitIsSingleIff(s[1..], sep);
      assert s == [s[0]] + s[1..];
    }
  }

  /** The first piece of `p + [sep] + q` is `p` when `p` holds no `sep`. */
  lemma {:induction false} SplitAtFirst(p: string, sep: char, q: string)
    requires sep !in p
    ensures Split(p + [sep] + q, sep) == [p] + Split(q, sep)
  {
    if p != [] {
      SplitAtFirst(p[1..], sep, q);
      assert (p + [sep] + q)[1..] == p[1..] + [sep] + q;
      assert [p[0]] + p[1..] == p;
    } else {
      assert p + [sep] + q == [sep] + q;
    }
  }

  /** The popup label of the marker of ticket `id`. */
  function EncodeLabel(id: string): (popup: string)
    ensures |popup| == |id| + 3 && popup[..3] == "ID:" && popup[3..] == id
    ensures ':' in popup
  {
    "ID:" + id
  }

  /** The id the page takes from a clicked popup, as written:
      `label.split(":")[1]`. None stands for the IndexError raised when the
      popup holds no colon. */
  function DecodeLabel(popup: string): (r: Option<string>)
    ensures r.None? <==> ':' !in popup
    ensures r.Some? ==> ':' !in r.value
  {
    SplitIsSingleIff(popup, ':');
    var parts := Split(popup, ':');
    if |parts| < 2 then None else Some(parts[1])
  }

  /** Decoding the popup label of `id` as written gives back `id` exactly when `id`
      holds no colon; otherwise it gives only the part of `id` before its
      first colon. */
  lemma DecodeEncodeAsWritten(id: string)
    ensures DecodeLabel(EncodeLabel(id)).Some?
    ensures var d := DecodeLabel(EncodeLabel(id)).value;
            (d == id <==> ':' !in id)
            && |d| <= |id| && d == id[..|d|]
            && (':' in id ==> |d| < |id| && id[|d|] == ':')
  {
    assert EncodeLabel(id) == "ID" + [':'] + id;
    SplitAtFirst("ID", ':', id);
    var parts := Split(id, ':');
    assert DecodeLabel(EncodeLabel(id)) == Some(parts[0]);
    JoinSplit(id, ':');
    if |parts| == 1 {
      SplitIsSingleIff(id, ':');
    } else {
      assert id == parts[0] + [':'] + Join(parts[1..], ':');
      assert id[..|parts[0]|] == parts[0];
    }
  }

  /** A ticket id with a colon is cut short by the as-written decoding. */
  lemma ColonIdIsTruncated()
    ensures DecodeLabel(EncodeLabel("A:1")) == Some("A")
  {
    var id := "A:1";
    DecodeEncodeAsWritten(id);
    var d := DecodeLabel(EncodeLabel(id)).value;
    assert id[0] == 'A' && id[1] == ':' && id[2] == '1';
    assert |d| == 1;
    assert d == id[..1] == ['A'] == "A";
  }

  /** The text after the first occurrence of `sep`, or None when there is none. */
  function AfterFirst(s: string, sep: char): (r: Option<string>)
    ensures r.None? <==> sep !in s
    ensures r.Some? ==> |r.value| < |s| && s[|s| - |r.value| - 1] == sep
                        && s[|s| - |r.value|..] == r.value && sep !in s[..|s| - |r.value| - 1]
  {
    if s == [] then None
    else if s[0] == sep then Some(s[1..])
    else
      var r := AfterFirst(s[1..], sep);
      assert r.Some? ==> s[1..][..|s[1..]| - |r.value| - 1] == s[1..|s| - |r.value| - 1];
      r
  }

  /** The decoding the page evidently intends, `label.split(":", 1)[1]`: the
      whole text after the first colon. None stands for the IndexError raised
      when the popup holds no colon. */
  function DecodeLabelFixed(popup: string): (r: Option<string>)
    ensures r.None? <==> ':' !in popup
  {
    AfterFirst(popup, ':')
  }

  /** The intended decoding recovers every id from its popup. */
  lemma DecodeEncodeFixed(id: string)
    ensures DecodeLabelFixed(EncodeLabel(id)) == Some(id)
  {
    var popup := EncodeLabel(id);
    assert popup[0] == 'I' && popup[1] == 'D' && popup[2] == ':';
    assert popup[3..] == id;
  }
}
