/**
 * The image store the handlers talk to (`ImageRepo`): images kept under an id,
 * each with the file name and mime type recorded beside its bytes. The
 * backing files are not modelled; whether a write or read reaches the disk is
 * a parameter.
 */
module Images {
  import opened Wrappers
  import opened Ints

  datatype StoredImage = StoredImage(fileName: string, mimeType: string, bytes: seq<uint8>)

  /** What `get_image` hands back. */
  datatype Image = Image(id: Option<string>, fileName: string, mimeType: string, bytes: seq<uint8>)

  /** How one `create_image` goes: the files are written under a fresh UUID, or a write fails. */
  datatype StoreIo = Written(uuid: string) | IoFailed

  datatype StoreError = ImageMissing | IoError

  class ImageStore {
    var images: map<string, StoredImage>

    constructor ()
      ensures images == map[]
    {
      images := map[];
    }

    /** `create_image`: store the bytes and metadata under a new id and return that id. */
    method CreateImage(fileName: string, bytes: seq<uint8>, mimeType: string, io: StoreIo)
      returns (r: Result<string, StoreError>)
      modifies this
      ensures io.IoFailed? ==> r == Failure(IoError) && images == old(images)
      ensures io.Written? ==>
                r == Success(io.uuid) && images == old(images)[io.uuid := StoredImage(fileName, mimeType, bytes)]
    {
      match io
      case IoFailed => r := Failure(IoError);
      case Written(uuid) =>
        images := images[uuid := StoredImage(fileName, mimeType, bytes)];
        r := Success(uuid);
    }

    /** `get_image`: the stored bytes and metadata, tagged with the id asked for. */
    method GetImage(id: string, readOk: bool) returns (r: Result<Image, StoreError>)
      ensures id !in images ==> r == Failure(ImageMissing)
      ensures id in images && !readOk ==> r == Failure(IoError)
      ensures id in images && readOk ==>
                r == Success(Image(Some(id), images[id].fileName, images[id].mimeType, images[id].bytes))
    {
      if id !in images {
        return Failure(ImageMissing);
      }
      if !readOk {
        return Failure(IoError);
      }
      var s := images[id];
      r := Success(Image(Some(id), s.fileName, s.mimeType, s.bytes));
    }
  }
}
