/** The url gatherers of Moebooru sites and of Vsco: a url belongs to the site when its
    host names the site, case-insensitively, and its images are those of the post whose id
    follows a search marker. The post lookup is a parameter; `None` stands for the null
    post it returns when there is none, and `Some` for the post's content urls. */
module Gatherers {
  import opened Wrappers
  import opened Text
  import opened Resolving
  import Client

  /** A Moebooru gatherer: the site name looked for in hosts, the marker written directly
      before an id, and the lookup of a post by id. */
  datatype MoebooruGatherer = MoebooruGatherer(name: string, search: string, lookup: string -> Option<seq<string>>)

  /** `IsFromWebsite`: the host contains the name, ignoring case. */
  predicate HostNames(host: string, name: string) {
    CaseInsContains(host, name)
  }

  /** Hosts that agree once folded to lower case are claimed alike. */
  lemma HostNamesIgnoresCase(host: string, other: string, name: string)
    requires |host| == |other|
    requires forall k :: 0 <= k < |host| ==> ToLowerAscii(host[k]) == ToLowerAscii(other[k])
    ensures HostNames(host, name) <==> HostNames(other, name)
  {
    forall j | 0 <= j <= |host|
      ensures FoldMatchesAt(host, j, name) <==> FoldMatchesAt(other, j, name)
    {
      if j + |name| <= |host| {
        forall k | 0 <= k < |name|
          ensures ToLowerAscii(host[j + k]) == ToLowerAscii(name[k]) <==> ToLowerAscii(other[j + k]) == ToLowerAscii(name[k])
        {
          var m := j + k;
          assert ToLowerAscii(host[m]) == ToLowerAscii(other[m]);
        }
      }
    }
    if HostNames(host, name) {
      var i := CaseInsIndexOf(host, name).value;
      assert FoldMatchesAt(other, i, name);
    }
    if HostNames(other, name) {
      var i := CaseInsIndexOf(other, name).value;
      assert FoldMatchesAt(host, i, name);
    }
  }

  /** A host that spells the name out is claimed. */
  lemma HostNamesWhenSpelled(a: string, name: string, b: string)
    ensures HostNames(a + name + b, name)
  {
    FoldMatchesItself(a, name, b);
  }

  /** A host names the site exactly when the name matches, folded, at some position. */
  lemma HostNamesAt(host: string, name: string)
    ensures HostNames(host, name) <==> exists j :: 0 <= j <= |host| && FoldMatchesAt(host, j, name)
  {
    if HostNames(host, name) {
      var i := CaseInsIndexOf(host, name).value;
      assert FoldMatchesAt(host, i, name);
    }
  }

  /** `MoebooruImageGatherer.IsFromWebsite`. */
  function IsFromMoebooru(g: MoebooruGatherer, host: string): (r: bool)
    ensures r <==> exists j :: 0 <= j <= |host| && FoldMatchesAt(host, j, g.name)
  {
    HostNamesAt(host, g.name);
    HostNames(host, g.name)
  }

  /** `MoebooruImageGatherer.GetImagesAsync`: a url without the marker is unknown; otherwise
      the post named by the first segment after it is looked up. */
  function MoebooruImages(g: MoebooruGatherer, url: string): (r: ImageResponse)
    ensures r.url == url
    ensures r.Unknown? <==> !CaseInsContains(Client.RemoveQuery(url), g.search)
    ensures r.FromGatherer? || r.NotFound? || r.Unknown?
  {
    GatherFromMarker(url, g.search, g.lookup)
  }

  /** The site `VscoImageGatherer` claims, and the marker before a media id. */
  const VscoHost: string := "vsco.co"
  const VscoMarker: string := "/media/"

  /** `VscoImageGatherer.IsFromWebsite`. */
  function IsFromVsco(host: string): (r: bool)
    ensures r <==> exists j :: 0 <= j <= |host| && FoldMatchesAt(host, j, VscoHost)
  {
    HostNamesAt(host, VscoHost);
    HostNames(host, VscoHost)
  }

  /** `VscoImageGatherer.GetImagesAsync`: as for a Moebooru site, with "/media/" before the id
      and the Vsco post lookup. */
  function VscoImages(url: string, lookup: string -> Option<seq<string>>): (r: ImageResponse)
    ensures r.url == url
    ensures r.Unknown? <==> !CaseInsContains(Client.RemoveQuery(url), VscoMarker)
    ensures r.FromGatherer? || r.NotFound? || r.Unknown?
  {
    GatherFromMarker(url, VscoMarker, lookup)
  }

  /** A url `prefix + marker + id + tail`, free of query and fragment and with the marker
      first after `prefix`, gathers the content urls of the post with id `id`, or is not
      found when there is no such post. */
  lemma GatheredOfMarkedUrl(prefix: string, marker: string, id: string, tail: string, lookup: string -> Option<seq<string>>)
    requires '/' !in id && '?' !in id && '#' !in id && id != []
    requires tail == [] || tail[0] == '/'
    requires '?' !in prefix + marker + tail && '#' !in prefix + marker + tail
    requires FoldFree(prefix + marker + id + tail, marker, |prefix|)
    ensures var url := prefix + marker + id + tail;
      GatherFromMarker(url, marker, lookup) == if lookup(id).Some? then FromGatherer(url, lookup(id).value) else NotFound(url)
  {
    var url := prefix + marker + id + tail;
    ResolvedId(prefix, marker, id, tail, (u: string) => false);
  }

  /** A Moebooru post url names its post by id. */
  lemma MoebooruImagesOfPostUrl(g: MoebooruGatherer, prefix: string, id: string, tail: string)
    requires '/' !in id && '?' !in id && '#' !in id && id != []
    requires tail == [] || tail[0] == '/'
    requires '?' !in prefix + g.search + tail && '#' !in prefix + g.search + tail
    requires FoldFree(prefix + g.search + id + tail, g.search, |prefix|)
    ensures var url := prefix + g.search + id + tail;
      MoebooruImages(g, url) == if g.lookup(id).Some? then FromGatherer(url, g.lookup(id).value) else NotFound(url)
  {
    GatheredOfMarkedUrl(prefix, g.search, id, tail, g.lookup);
  }

  /** A Vsco media url names its post by id. */
  lemma VscoImagesOfMediaUrl(prefix: string, id: string, tail: string, lookup: string -> Option<seq<string>>)
    requires '/' !in id && '?' !in id && '#' !in id && id != []
    requires tail == [] || tail[0] == '/'
    requires '?' !in prefix + VscoMarker + tail && '#' !in prefix + VscoMarker + tail
    requires FoldFree(prefix + VscoMarker + id + tail, VscoMarker, |prefix|)
    ensures var url := prefix + VscoMarker + id + tail;
      VscoImages(url, lookup) == if lookup(id).Some? then FromGatherer(url, lookup(id).value) else NotFound(url)
  {
    GatheredOfMarkedUrl(prefix, VscoMarker, id, tail, lookup);
  }
}
