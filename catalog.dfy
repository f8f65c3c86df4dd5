/**
 * The Office catalog data: the standard version and app lists, the OLE and macro rules,
 * and the members of the DDE group.
 */
module OfficeCatalog {
  import opened Registry
  import opened Format
  import opened Office

  /** Office 2007, 2010, 2013 and 2016. */
  const StandardOfficeVersions: seq<string> := ["12.0", "14.0", "15.0", "16.0"]

  const StandardOfficeApps: seq<string> := ["Excel", "PowerPoint", "Word"]

  const PathRegExSecurityUpper: string := "SOFTWARE\\Microsoft\\Office\\%s\\%s\\Security"
  const PathRegExOptions: string := "SOFTWARE\\Microsoft\\Office\\%s\\%s\\Options"
  const PathRegExWordMail: string := "SOFTWARE\\Microsoft\\Office\\%s\\%s\\Options\\WordMail"
  const PathRegExSecurity: string := "Software\\Microsoft\\Office\\%s\\%s\\Security"
  const PathWord2007: string := "Software\\Microsoft\\Office\\12.0\\Word\\Options\\vpref"

  /** Office packager objects: 2 means no prompt and the object does not execute. */
  const OfficeOLE: RegExSingleDWORD := RegExSingleDWORD(
    CurrentUser, PathRegExSecurityUpper, "PackagerPrompt", 2,
    StandardOfficeApps, StandardOfficeVersions,
    "OfficeOLE", "Office Packager Objects (OLE)", "")

  /** Office macros: 4 means all macros are disabled. */
  const OfficeMacros: RegExSingleDWORD := RegExSingleDWORD(
    CurrentUser, PathRegExSecurityUpper, "VBAWarnings", 4,
    StandardOfficeApps, StandardOfficeVersions,
    "OfficeMacros", "Office Macros", "")

  /** The templated members of the DDE group, in their order in the group. */
  const OfficeDDETemplates: seq<RegExSingleDWORD> := [
    RegExSingleDWORD(CurrentUser, PathRegExOptions, "DontUpdateLinks", 1,
      ["Word", "Excel"], ["14.0", "15.0", "16.0"], "OfficeDDE_DontUpdateLinksWordExcel", "", ""),
    RegExSingleDWORD(CurrentUser, PathRegExWordMail, "DontUpdateLinks", 1,
      ["Word"], ["14.0", "15.0", "16.0"], "OfficeDDE_DontUpdateLinksWordMail", "", ""),
    RegExSingleDWORD(CurrentUser, PathRegExOptions, "DDEAllowed", 0,
      ["Excel"], StandardOfficeVersions, "OfficeDDE_DDEAllowedExcel", "", ""),
    RegExSingleDWORD(CurrentUser, PathRegExOptions, "DDECleaned", 1,
      ["Excel"], StandardOfficeVersions, "OfficeDDE_DDECleanedExcel", "", ""),
    RegExSingleDWORD(CurrentUser, PathRegExOptions, "Options", 0x117,
      ["Excel"], StandardOfficeVersions, "OfficeDDE_OptionsExcel", "", ""),
    RegExSingleDWORD(CurrentUser, PathRegExSecurity, "WorkbookLinkWarnings", 2,
      ["Excel"], StandardOfficeVersions, "OfficeDDE_WorkbookLinksExcel", "", "")
  ]

  /** The last member of the DDE group, a plain single-value rule for Word 2007. */
  const OfficeDDEWord2007: SingleValueDWORD := SingleValueDWORD(
    CurrentUser, PathWord2007, "fNoCalclinksOnopen_90_1", 1, "OfficeDDE_Word2007", "", "")

  /** The number of single-value rules each catalog template expands to. */
  lemma CatalogExpansionSizes()
    ensures |HardenTargets(OfficeOLE)| == 12
    ensures |HardenTargets(OfficeMacros)| == 12
    ensures |HardenTargets(OfficeDDETemplates[0])| == 6
    ensures |HardenTargets(OfficeDDETemplates[1])| == 3
    ensures forall k :: 2 <= k < |OfficeDDETemplates| ==> |HardenTargets(OfficeDDETemplates[k])| == 4
  {
    ExpansionSize(OfficeOLE);
    ExpansionSize(OfficeMacros);
    ExpansionSize(OfficeDDETemplates[0]);
    ExpansionSize(OfficeDDETemplates[1]);
    forall k | 2 <= k < |OfficeDDETemplates| ensures |HardenTargets(OfficeDDETemplates[k])| == 4 {
      ExpansionSize(OfficeDDETemplates[k]);
    }
  }

  /** The upper-case security template puts the version and the app between fixed literals. */
  lemma SecurityTemplateFill(version: string, app: string)
    ensures Sprintf(PathRegExSecurityUpper, [version, app])
            == "SOFTWARE\\Microsoft\\Office\\" + version + "\\" + app + "\\Security"
  {
    var p0, p1, p2 := "SOFTWARE\\Microsoft\\Office\\", "\\", "\\Security";
    assert Literal(p0) && Literal(p1) && Literal(p2);
    assert PathRegExSecurityUpper == p0 + "%s" + p1 + "%s" + p2;
    FillTwoHoles(p0, p1, p2, version, app);
  }

  /** Each security-key path the OLE rule touches, at its position in the expansion. */
  lemma OfficeOLEPaths(i: nat, j: nat)
    requires i < |StandardOfficeVersions| && j < |StandardOfficeApps|
    ensures i * 3 + j < |HardenTargets(OfficeOLE)|
    ensures HardenTargets(OfficeOLE)[i * 3 + j].path
            == "SOFTWARE\\Microsoft\\Office\\" + StandardOfficeVersions[i] + "\\" + StandardOfficeApps[j] + "\\Security"
  {
    ExpansionOrder(OfficeOLE, i, j);
    SecurityTemplateFill(StandardOfficeVersions[i], StandardOfficeApps[j]);
  }

  /** Each security-key path the macro rule touches, at its position in the expansion. */
  lemma OfficeMacrosPaths(i: nat, j: nat)
    requires i < |StandardOfficeVersions| && j < |StandardOfficeApps|
    ensures i * 3 + j < |HardenTargets(OfficeMacros)|
    ensures HardenTargets(OfficeMacros)[i * 3 + j].path
            == "SOFTWARE\\Microsoft\\Office\\" + StandardOfficeVersions[i] + "\\" + StandardOfficeApps[j] + "\\Security"
  {
    ExpansionOrder(OfficeMacros, i, j);
    SecurityTemplateFill(StandardOfficeVersions[i], StandardOfficeApps[j]);
  }

  /** The example order: versions 14.0, 15.0 and apps Word, Excel give four pairs, version-major. */
  lemma ExampleOrder()
    ensures Grid(["14.0", "15.0"], ["Word", "Excel"])
            == [("14.0", "Word"), ("14.0", "Excel"), ("15.0", "Word"), ("15.0", "Excel")]
  {
    GridAt(["14.0", "15.0"], ["Word", "Excel"], 0, 0);
    GridAt(["14.0", "15.0"], ["Word", "Excel"], 0, 1);
    GridAt(["14.0", "15.0"], ["Word", "Excel"], 1, 0);
    GridAt(["14.0", "15.0"], ["Word", "Excel"], 1, 1);
    GridLength(["14.0", "15.0"], ["Word", "Excel"]);
  }

  /** A repeated version is not deduplicated: it yields the same target twice. */
  lemma DuplicateVersionExample(t: RegExSingleDWORD)
    requires t.officeVersions == ["14.0", "14.0"] && t.officeApps == ["Word"]
    ensures |HardenTargets(t)| == 2
    ensures HardenTargets(t)[0] == HardenTargets(t)[1] == HardenTarget(t, "14.0", "Word")
  {
    ExpansionSize(t);
    ExpansionOrder(t, 0, 0);
    DuplicatesKept(t, 0, 0, 1, 0);
  }

  /** Name, LongName and Description give the catalog entries' identities; short names are unique. */
  lemma CatalogIdentity()
    ensures OfficeOLE.Name() == "OfficeOLE" && OfficeOLE.LongName() == "Office Packager Objects (OLE)"
    ensures OfficeOLE.Description() == "" && OfficeMacros.Name() == "OfficeMacros"
    ensures OfficeMacros.LongName() == "Office Macros" && OfficeMacros.Description() == ""
    ensures OfficeOLE.Name() != OfficeMacros.Name()
    ensures forall k :: 0 <= k < |OfficeDDETemplates| ==>
              && OfficeDDETemplates[k].LongName() == "" && OfficeDDETemplates[k].Description() == ""
              && OfficeDDETemplates[k].Name() != OfficeOLE.Name()
              && OfficeDDETemplates[k].Name() != OfficeMacros.Name()
    ensures forall k, l :: 0 <= k < l < |OfficeDDETemplates| ==>
              OfficeDDETemplates[k].Name() != OfficeDDETemplates[l].Name()
  {
  }
}
