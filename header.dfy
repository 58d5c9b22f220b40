/** The header choice of ClientHeader.tsx: a total mapping from the current pathname to the header
    shown, where the login page shows none. */
module Header {
  import opened Base

  /** HeaderUpload, HeaderTopPage and HeaderDefault. */
  datatype Header = UploadHeader | TopPageHeader | DefaultHeader

  /** `renderHeader`: `None` stands for the `null` rendered on '/login'. */
  function RenderHeader(pathname: string): (h: Option<Header>)
    ensures h == Some(UploadHeader) <==> pathname == "/post"
    ensures h == Some(TopPageHeader) <==> pathname == "/"
    ensures h.None? <==> pathname == "/login"
    ensures h == Some(DefaultHeader) <==> pathname !in {"/post", "/", "/login"}
  {
    match pathname
    case "/post" => Some(UploadHeader)
    case "/" => Some(TopPageHeader)
    case "/login" => None
    case _ => Some(DefaultHeader)
  }

  /** A page of the application that shows each header. */
  function PageShowing(h: Header): string
  {
    match h
    case UploadHeader => "/post"
    case TopPageHeader => "/"
    case DefaultHeader => "/profile"
  }

  /** Every header is shown on some page. */
  lemma EveryHeaderShown(h: Header)
    ensures RenderHeader(PageShowing(h)) == Some(h)
  {
  }
}
