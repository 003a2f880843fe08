/** The pure lookup and routing callbacks: the isoform dropdown's options, the
    sidebar's active links and the page chosen for a pathname. */
module Pages {
  import opened Wrappers
  import opened Strings
  import opened Records

  /** Voltage-gated potassium isoform numbers. */
  const KvIsoforms: seq<string> := [
    "1.1", "1.2", "1.3", "1.4", "1.5", "1.6", "1.7", "1.8", "2.1", "2.2", "3.1", "3.2", "3.3",
    "3.4", "4.1", "4.2", "4.3", "5.1", "6.1", "6.2", "6.3", "6.4", "7.1", "7.2", "7.3", "7.4",
    "7.5", "8.1", "8.2", "9.1", "9.2", "9.3", "10.1", "10.2", "11.1", "11.2", "11.3", "12.1",
    "12.2", "12.3"]

  /** Voltage-gated sodium isoform numbers. */
  const NavIsoforms: seq<string> := [
    "1.1", "1.2", "1.3", "1.4", "1.5", "1.6", "1.7", "1.8", "1.9", "2", "2.1", "2.2", "2.3", "2.4",
    "3.1"]

  /** The option list shown when no catalog applies. */
  const EmptyOptions: seq<DropdownOption> := [DropdownOption("", "")]

  /** One option "`family` `number`" per catalog number, label equal to value. */
  function Catalog(family: string, numbers: seq<string>): (r: seq<DropdownOption>)
    ensures |r| == |numbers|
    ensures forall i :: 0 <= i < |r| ==> r[i].display == r[i].value == family + " " + numbers[i]
  {
    seq(|numbers|, i requires 0 <= i < |numbers| =>
      DropdownOption(family + " " + numbers[i], family + " " + numbers[i]))
  }

  /** `isoform_option`: the isoform dropdown's options for a gating mode and an ion. */
  function IsoformOptions(gating: string, ion: Text): (r: seq<DropdownOption>)
    ensures forall i :: 0 <= i < |r| ==> r[i].display == r[i].value
    ensures r == EmptyOptions <==>
      ion.None? || !Contains(gating, "vg") || (!Contains(ion.value, "K") && !Contains(ion.value, "Na"))
    ensures ion.Some? && Contains(gating, "vg") && Contains(ion.value, "K") ==>
      |r| == 40 && forall i :: 0 <= i < 40 ==> r[i].value == "Kv " + KvIsoforms[i]
    ensures ion.Some? && Contains(gating, "vg") && !Contains(ion.value, "K") && Contains(ion.value, "Na") ==>
      |r| == 15 && forall i :: 0 <= i < 15 ==> r[i].value == "Nav " + NavIsoforms[i]
  {
    if ion.Some? then
      if Contains(gating, "vg") then
        if Contains(ion.value, "K") then Catalog("Kv", KvIsoforms)
        else if Contains(ion.value, "Na") then Catalog("Nav", NavIsoforms)
        else EmptyOptions
      else EmptyOptions
    else EmptyOptions
  }

  /** The page a pathname shows. */
  datatype Page = Kinetics | About | Contact | NotFound(pathname: Text)

  /** The sidebar link path `/page-i` for `i` in 1..3. */
  function PagePath(i: nat): string
    requires 1 <= i <= 3
  {
    "/page-" + [('0' as int + i) as char]
  }

  /** `toggle_active_links`: the active flags of the three sidebar links. */
  function ActiveLinks(pathname: Text): (flags: seq<bool>)
    ensures |flags| == 3
    ensures flags[0] <==> pathname == Some("/") || pathname == Some("/page-1")
    ensures flags[1] <==> pathname == Some("/page-2")
    ensures flags[2] <==> pathname == Some("/page-3")
  {
    assert PagePath(1) == "/page-1" && PagePath(2) == "/page-2" && PagePath(3) == "/page-3";
    if pathname == Some("/") then [true, false, false]
    else seq(3, i requires 0 <= i < 3 => pathname == Some(PagePath(i + 1)))
  }

  /** `render_page_content`: the page shown for a pathname. */
  function RenderPage(pathname: Text): (page: Page)
    ensures page.NotFound? <==>
      pathname !in {Some("/"), Some("/page-1"), Some("/page-2"), Some("/page-3")}
    ensures page.NotFound? ==> page.pathname == pathname
  {
    if pathname == Some("/") || pathname == Some("/page-1") then Kinetics
    else if pathname == Some("/page-2") then About
    else if pathname == Some("/page-3") then Contact
    else NotFound(pathname)
  }

  /** At most one sidebar link is active. */
  lemma {:induction false} AtMostOneLinkActive(pathname: Text)
    ensures forall i, j :: 0 <= i < j < 3 ==> !(ActiveLinks(pathname)[i] && ActiveLinks(pathname)[j])
  {
  }

  /** The active link is the one for the page shown, and no link is active on the
      not-found page; "/" shows the kinetics page and activates the first link only. */
  lemma {:induction false} LinksMatchPage(pathname: Text)
    ensures ActiveLinks(pathname)[0] <==> RenderPage(pathname) == Kinetics
    ensures ActiveLinks(pathname)[1] <==> RenderPage(pathname) == About
    ensures ActiveLinks(pathname)[2] <==> RenderPage(pathname) == Contact
    ensures RenderPage(pathname).NotFound? <==> ActiveLinks(pathname) == [false, false, false]
    ensures ActiveLinks(Some("/")) == [true, false, false] && RenderPage(Some("/")) == Kinetics
  {
  }

  /** The isoform options for the gating modes and ions the form offers: only voltage
      gating with K or Na gives a catalog. */
  lemma {:induction false} IsoformOptionsForFormValues()
    ensures IsoformOptions("vg", Some("K")) == Catalog("Kv", KvIsoforms)
    ensures IsoformOptions("vg", Some("Na")) == Catalog("Nav", NavIsoforms)
    ensures IsoformOptions("vg", Some("Ca")) == EmptyOptions
    ensures IsoformOptions("vg", Some("Cl")) == EmptyOptions
    ensures forall ion :: IsoformOptions("lg", ion) == EmptyOptions
    ensures forall gating :: IsoformOptions(gating, None) == EmptyOptions
  {
    assert Contains("vg", "vg");
    assert Contains("K", "K");
    ContainsChar("Na", 'K');
    ContainsChar("Ca", 'K');
    ContainsChar("Cl", 'K');
    assert "lg"[..2] == "lg" && "lg"[1..] == "g" && "g"[1..] == "";
    assert !Contains("g", "vg");
    assert Contains("Na", "Na") && !Contains("Na", "K");
    assert !Contains("Ca", "K") && !Contains("Ca", "Na");
    assert !Contains("Cl", "K") && !Contains("Cl", "Na");
    assert !Contains("lg", "vg");
  }
}
