/**
 * ContactsRepo.getImageByDensity: rewrite an image file name for the display density, replacing
 * its last four characters (the ".png" extension) with "@3x.png", "@2x.png" or ".png".
 *
 * The density level (Math.round of the display metrics' density) is taken as a parameter, and a
 * null Context or file name as `hasContext == false` or `file == None`.
 */
module ContactsRepo {
  import opened Wrappers

  /** The exception getImageByDensity throws: substring(0, length - 4) on a name shorter than four characters. */
  datatype Failure = StringIndexOutOfBounds

  /** The plain extension every rewritten name ends with. */
  const Png: string := ".png"

  /** Whether s ends with t. */
  predicate EndsWith(s: string, t: string)
  {
    |t| <= |s| && s[|s| - |t|..] == t
  }

  /** The suffix the switch on the density level appends: level 3, level 2, or anything else (1 included). */
  function DensitySuffix(level: int): (suffix: string)
    ensures EndsWith(suffix, Png)
  {
    if level == 3 then "@3x.png"
    else if level == 2 then "@2x.png"
    else Png
  }

  /** Only level 3 selects "@3x.png", only level 2 selects "@2x.png", and every other level the plain extension. */
  lemma DensitySuffixByLevel(level: int)
    ensures DensitySuffix(level) == "@3x.png" <==> level == 3
    ensures DensitySuffix(level) == "@2x.png" <==> level == 2
    ensures DensitySuffix(level) == Png <==> level != 2 && level != 3
  {
    assert "@3x.png" != "@2x.png";
    assert "@3x.png"[0] != Png[0];
    assert "@2x.png"[0] != Png[0];
  }

  /**
   * getImageByDensity: no name without a Context or a file name; a failure when the name is
   * shorter than four characters; otherwise the name without its last four characters followed
   * by the density's suffix.
   */
  function ImageByDensity(hasContext: bool, file: Option<string>, level: int): (r: Result<Option<string>, Failure>)
    ensures r == Ok(None) <==> !hasContext || file == None
    ensures r.Err? <==> hasContext && file != None && |file.value| < 4
    ensures r.Ok? && r.value != None ==>
              |r.value.value| == |file.value| - 4 + |DensitySuffix(level)|
              && r.value.value[..|file.value| - 4] == file.value[..|file.value| - 4]
              && r.value.value[|file.value| - 4..] == DensitySuffix(level)
  {
    if file == None || !hasContext then Ok(None)
    else if |file.value| < 4 then Err(StringIndexOutOfBounds)
    else
      var name := file.value[..|file.value| - 4];
      Ok(Some(name + DensitySuffix(level)))
  }

  /** Every name the rewrite produces ends with ".png". */
  lemma ImageEndsWithPng(hasContext: bool, file: Option<string>, level: int)
    ensures var r := ImageByDensity(hasContext, file, level);
      r.Ok? && r.value != None ==> EndsWith(r.value.value, Png)
  {
    var r := ImageByDensity(hasContext, file, level);
    if r.Ok? && r.value != None {
      var n, suffix := r.value.value, DensitySuffix(level);
      assert n[|n| - 4..] == suffix[|suffix| - 4..];
    }
  }

  /** At any level other than 2 and 3, a name already ending in ".png" comes back unchanged. */
  lemma PlainNameUnchanged(file: string, level: int)
    requires level != 2 && level != 3 && EndsWith(file, Png)
    ensures ImageByDensity(true, Some(file), level) == Ok(Some(file))
  {
    assert file[..|file| - 4] + Png == file;
  }

  /** At any level other than 2 and 3 the rewrite is idempotent: rewriting its result changes nothing. */
  lemma ImageByDensityIdempotent(file: string, level: int)
    requires level != 2 && level != 3 && |file| >= 4
    ensures var once := ImageByDensity(true, Some(file), level).value.value;
      ImageByDensity(true, Some(once), level) == Ok(Some(once))
  {
    ImageEndsWithPng(true, Some(file), level);
    PlainNameUnchanged(ImageByDensity(true, Some(file), level).value.value, level);
  }

  /** At level 2 the rewrite is not idempotent: "a.png" becomes "a@2x.png" and then "a@2x@2x.png". */
  lemma DoubleDensityNotIdempotent()
    ensures ImageByDensity(true, Some("a.png"), 2) == Ok(Some("a@2x.png"))
    ensures ImageByDensity(true, Some("a@2x.png"), 2) == Ok(Some("a@2x@2x.png"))
  {
    assert "a.png"[..1] == "a";
    assert "a" + "@2x.png" == "a@2x.png";
    assert "a@2x.png"[..4] == "a@2x";
    assert "a@2x" + "@2x.png" == "a@2x@2x.png";
  }
}
