/** The template helpers: the `sizify` filter, `construct_table_id` and the
    context `render_datatable` hands to its table template. */
module TemplateTags {
  import opened Wrappers
  import opened Text
  import ExportJob

  /** The unit the `sizify` filter prints for a size in bytes. */
  function SizeUnit(value: int): (u: string)
    ensures u == "kb" <==> value < 512000
    ensures u == "mb" <==> 512000 <= value < 4194304000
    ensures u == "gb" <==> value >= 4194304000
  {
    if value < 512000 then "kb"
    else if value < 4194304000 then "mb"
    else "gb"
  }

  /** The filter prints the rounded quotient, one space and the unit. */
  function Sizify(value: int, rounded: string): (shown: string)
    ensures |shown| == |rounded| + 1 + |SizeUnit(value)|
    ensures shown[..|rounded|] == rounded && shown[|rounded|] == ' '
    ensures shown[|rounded| + 1..] == SizeUnit(value)
  {
    rounded + " " + SizeUnit(value)
  }

  /** The filter and `ExportFile.sizify` agree on the unit up to case: the
      filter's is the lower-case form of the model's, and never equal to it. */
  lemma SizeUnitIsLowerExportUnit(size: nat)
    ensures Lower(ExportJob.UnitForSize(size)) == SizeUnit(size)
    ensures ExportJob.UnitForSize(size) != SizeUnit(size)
  {
    var u := ExportJob.UnitForSize(size);
    assert Lower(u)[0] == LowerChar(u[0]);
    if size < 512000 {
      assert Lower(u) == [LowerChar('K'), LowerChar('b')];
    } else if size < 4194304000 {
      assert Lower(u) == [LowerChar('M'), LowerChar('b')];
    } else {
      assert Lower(u) == [LowerChar('G'), LowerChar('b')];
    }
  }

  /** `construct_table_id`: the value followed by the argument. */
  function ConstructTableId(value: string, uniqueArg: string): (id: string)
    ensures |id| == |value| + |uniqueArg|
    ensures id[..|value|] == value && id[|value|..] == uniqueArg
  {
    value + uniqueArg
  }

  /** For one prefix, distinct arguments give distinct table ids. */
  lemma TableIdsDistinct(value: string, a: string, b: string)
    requires a != b
    ensures ConstructTableId(value, a) != ConstructTableId(value, b)
  {
    assert ConstructTableId(value, a)[|value|..] == a;
    assert ConstructTableId(value, b)[|value|..] == b;
  }

  /** The context of the `custom_table.html` inclusion tag. */
  datatype TableContext = TableContext(
    dataUrl: string,
    columns: seq<string>,
    tableId: string,
    showCheckbox: bool,
    allowSelectAll: bool,
    downloadAction: bool,
    includeSearchPanes: bool)

  /** Django's `reverse` found no URL pattern under the name. */
  datatype TagError = NoReverseMatch(name: string)

  /** `render_datatable`: the URL name is resolved by `reverse` (a
      parameter here, `None` for a name no pattern has) unless it is empty,
      and every other argument is passed through unchanged. */
  function RenderDatatable(reverse: (string, map<string, string>) -> Option<string>,
                           dataUrl: string, columns: seq<string>, tableId: string,
                           urlKwargs: map<string, string>, showCheckbox: bool,
                           allowSelectAll: bool, includeSearchPanes: bool,
                           downloadAction: bool): (r: Result<TableContext, TagError>)
    ensures r.Err? <==> dataUrl != "" && reverse(dataUrl, urlKwargs).None?
    ensures r.Err? ==> r.error == NoReverseMatch(dataUrl)
    ensures r.Ok? && dataUrl == "" ==> r.value.dataUrl == ""
    ensures r.Ok? && dataUrl != "" ==> Some(r.value.dataUrl) == reverse(dataUrl, urlKwargs)
    ensures r.Ok? ==> r.value.columns == columns && r.value.tableId == tableId
    ensures r.Ok? ==> r.value.showCheckbox == showCheckbox && r.value.allowSelectAll == allowSelectAll
    ensures r.Ok? ==> r.value.downloadAction == downloadAction && r.value.includeSearchPanes == includeSearchPanes
  {
    var url :- if dataUrl == "" then Ok("")
               else if reverse(dataUrl, urlKwargs).Some? then Ok(reverse(dataUrl, urlKwargs).value)
               else Err(NoReverseMatch(dataUrl));
    Ok(TableContext(url, columns, tableId, showCheckbox, allowSelectAll, downloadAction, includeSearchPanes))
  }

  /** The tag with its defaults: table id `default`, checkboxes, select-all
      and search panes on, download action off. An empty URL name cannot
      fail. */
  function RenderDatatableDefaults(reverse: (string, map<string, string>) -> Option<string>,
                                   dataUrl: string, columns: seq<string>): (r: Result<TableContext, TagError>)
    ensures r.Err? <==> dataUrl != "" && reverse(dataUrl, map[]).None?
    ensures r.Ok? ==> r.value.tableId == "default" && r.value.showCheckbox && r.value.allowSelectAll
    ensures r.Ok? ==> r.value.includeSearchPanes && !r.value.downloadAction && r.value.columns == columns
    ensures dataUrl == "" ==> r.Ok? && r.value.dataUrl == ""
  {
    RenderDatatable(reverse, dataUrl, columns, "default", map[], true, true, true, false)
  }
}
