/**
 * Track metadata guessed from a file name, as in src/common/meta.rs: the
 * stem is cut at " - " into at most three parts, read as artist, album and
 * title.
 */
module Meta {
  import opened Wrappers

  /** The separator `from_stem` splits on. */
  const SEPARATOR: string := " - "

  /** `s` holds the separator at index `i`. */
  predicate SeparatorAt(s: string, i: int)
  {
    0 <= i && i + |SEPARATOR| <= |s| && s[i..i + |SEPARATOR|] == SEPARATOR
  }

  /** `s` holds the separator somewhere. */
  predicate ContainsSeparator(s: string)
  {
    exists i :: 0 <= i < |s| && SeparatorAt(s, i)
  }

  /** The first index at or after `from` where the separator starts, searching left to right. */
  function FindSeparatorFrom(s: string, from: nat): (r: Option<nat>)
    requires from <= |s|
    ensures r.Some? ==> from <= r.value && SeparatorAt(s, r.value)
    ensures forall k :: from <= k && (r.None? || k < r.value) ==> !SeparatorAt(s, k)
    decreases |s| - from
  {
    if from + |SEPARATOR| > |s| then None
    else if s[from..from + |SEPARATOR|] == SEPARATOR then Some(from)
    else FindSeparatorFrom(s, from + 1)
  }

  /** `str::find(" - ")`: the index of the first separator, if there is one. */
  function FindSeparator(s: string): (r: Option<nat>)
    ensures r.None? <==> !ContainsSeparator(s)
    ensures r.Some? ==> SeparatorAt(s, r.value) && forall k :: 0 <= k < r.value ==> !SeparatorAt(s, k)
  {
    FindSeparatorFrom(s, 0)
  }

  /** The parts joined back together with the separator between each two. */
  function Join(parts: seq<string>): string
  {
    if |parts| <= 1 then (if parts == [] then "" else parts[0])
    else parts[0] + SEPARATOR + Join(parts[1..])
  }

  /** Text ending before the first separator contains no separator. */
  lemma PrefixBeforeFirstSeparator(s: string, i: nat)
    requires i <= |s|
    requires forall k :: 0 <= k < i ==> !SeparatorAt(s, k)
    ensures !ContainsSeparator(s[..i])
  {
    forall k | SeparatorAt(s[..i], k) ensures false {
      assert s[..i][k..k + |SEPARATOR|] == s[k..k + |SEPARATOR|];
      assert SeparatorAt(s, k);
    }
  }

  /**
   * `str::splitn(n, " - ")`: at most `n` parts, cut at the leftmost
   * separators, the last part holding the unsplit rest. Joining the parts
   * gives `s` back, no part but the last contains the separator, and when
   * fewer than `n` parts come out the last one contains none either.
   */
  function SplitN(s: string, n: nat): (parts: seq<string>)
    requires n >= 1
    ensures 1 <= |parts| <= n
    ensures Join(parts) == s
    ensures forall k :: 0 <= k < |parts| - 1 ==> !ContainsSeparator(parts[k])
    ensures |parts| < n ==> !ContainsSeparator(parts[|parts| - 1])
    ensures parts[0] == s <==> |parts| == 1
    decreases n
  {
    if n == 1 then [s]
    else match FindSeparator(s)
      case None => [s]
      case Some(i) =>
        PrefixBeforeFirstSeparator(s, i);
        var rest := SplitN(s[i + |SEPARATOR|..], n - 1);
        assert s == s[..i] + SEPARATOR + s[i + |SEPARATOR|..];
        [s[..i]] + rest
  }

  /**
   * Every cut is at the leftmost separator still ahead: the first part ends
   * where the first separator starts, and the parts after it are those of
   * splitting the rest into one part fewer.
   */
  lemma SplitNCutsLeftmost(s: string, n: nat)
    requires n >= 1
    ensures var parts := SplitN(s, n);
            |parts| > 1 ==> FindSeparator(s) == Some(|parts[0]|) &&
                            parts[1..] == SplitN(s[|parts[0]| + |SEPARATOR|..], n - 1)
  {
  }

  /** Cutting "x - - y" takes the first separator, not the one that ends at the second dash. */
  lemma SplitNOverlapExample()
    ensures SplitN("x - - y", 3) == ["x", "- y"]
  {
    var s := "x - - y";
    assert SeparatorAt(s, 1);
    assert s[0..|SEPARATOR|][0] == 'x';
    assert FindSeparator(s) == Some(1);
    assert s[..1] == "x";
    var rest := s[4..];
    assert rest == "- y";
    assert !ContainsSeparator(rest) by {
      forall k | 0 <= k < |rest| ensures !SeparatorAt(rest, k) {
        if k == 0 {
          assert rest[k..k + |SEPARATOR|][0] == '-';
        }
      }
    }
    assert SplitN(rest, 2) == [rest];
  }

  /** How sure the guess for a field is. */
  datatype Confidence = Poor | Average | Good

  /** A guessed field with its confidence, or nothing. */
  type TrackField<T> = Option<(T, Confidence)>

  datatype TrackMeta = TrackMeta(artist: TrackField<string>, album: TrackField<string>,
                                 number: TrackField<nat>, title: TrackField<string>)

  /**
   * `TrackMeta::from_stem`: one part is a title of poor confidence; two are
   * artist and title; three are artist, album and title, all of average
   * confidence. The track number is never guessed from the stem.
   */
  function FromStem(stem: string): (m: TrackMeta)
    ensures m.number == None && m.title.Some?
    ensures m.artist.None? <==> !ContainsSeparator(stem)
    ensures m.album.Some? ==> m.artist.Some?
    ensures m.title.value.1 == Poor <==> m.artist.None?
  {
    var parts := SplitN(stem, 3);
    if |parts| == 1 then
      TrackMeta(None, None, None, Some((parts[0], Poor)))
    else if |parts| == 2 then
      TrackMeta(Some((parts[0], Average)), None, None, Some((parts[1], Average)))
    else if |parts| == 3 then
      TrackMeta(Some((parts[0], Average)), Some((parts[1], Average)), None, Some((parts[2], Average)))
    else
      assert false; TrackMeta(None, None, None, None)
  }

  /** The present parts of a guess, in stem order: artist, album, title. */
  function Parts(m: TrackMeta): seq<string>
  {
    (if m.artist.Some? then [m.artist.value.0] else []) +
    (if m.album.Some? then [m.album.value.0] else []) +
    (if m.title.Some? then [m.title.value.0] else [])
  }

  /** Joining the guessed parts with the separator gives back the stem. */
  lemma FromStemRejoins(stem: string)
    ensures Join(Parts(FromStem(stem))) == stem
  {
  }

  /** Artist and album never contain the separator; only the title can. */
  lemma FromStemArtistAlbumPlain(stem: string)
    ensures FromStem(stem).artist.Some? ==> !ContainsSeparator(FromStem(stem).artist.value.0)
    ensures FromStem(stem).album.Some? ==> !ContainsSeparator(FromStem(stem).album.value.0)
  {
  }

  /** A stem without separator is read as a title alone, of poor confidence. */
  lemma FromStemNoSeparator(stem: string)
    requires !ContainsSeparator(stem)
    ensures FromStem(stem) == TrackMeta(None, None, None, Some((stem, Poor)))
  {
  }

  /** A stem with exactly one separator, at `i`, is read as artist and title. */
  lemma FromStemOneSeparator(stem: string, i: nat)
    requires FindSeparator(stem) == Some(i)
    requires !ContainsSeparator(stem[i + |SEPARATOR|..])
    ensures FromStem(stem) == TrackMeta(Some((stem[..i], Average)), None, None,
                                        Some((stem[i + |SEPARATOR|..], Average)))
  {
  }

  /**
   * A stem with a first separator at `i` and another one `j` characters
   * after it is read as artist, album and title; the title is all the rest,
   * further separators included.
   */
  lemma FromStemTwoSeparators(stem: string, i: nat, j: nat)
    requires FindSeparator(stem) == Some(i)
    requires FindSeparator(stem[i + |SEPARATOR|..]) == Some(j)
    ensures var rest := stem[i + |SEPARATOR|..];
            FromStem(stem) == TrackMeta(Some((stem[..i], Average)), Some((rest[..j], Average)), None,
                                        Some((rest[j + |SEPARATOR|..], Average)))
  {
  }
}
