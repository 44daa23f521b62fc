/**
 * The decision logic of submit_for_inference.py: picking a supported PyTorch
 * version from Conda package specs, selecting a model's files by name, and
 * laying out an inference submission (staged image, scoring arguments,
 * Python environment). The cloud calls (model lookup, HTTP downloads,
 * experiment submission) are inputs or outputs of the model.
 */
module SubmitForInference {
  import opened Wrappers
  import opened Text
  import opened Paths
  import opened AzureMl

  const DefaultResultImageName: string := "segmentation.dcm.zip"
  const DefaultDataFolder: string := "data"
  const ImageDataFileName: string := "imagedata.zip"
  const ScoreScript: string := "score.py"
  const RunScoringScript: string := "download_model_and_run_scoring.py"
  /** The model tag that names the Python environment the model was trained in. */
  const PythonEnvironmentNameTag: string := "python_environment_name"

  // ---------------------------------------------------------------------------
  // PyTorch version selection

  /** `spec.split("=")` has exactly two parts and the first is "pytorch". */
  predicate IsPytorchSpec(spec: string)
  {
    var components := Split(spec, '=');
    |components| == 2 && components[0] == "pytorch"
  }

  /** The version a "pytorch=<v>" spec asks for. */
  function SpecVersion(spec: string): string
    requires IsPytorchSpec(spec)
  {
    Split(spec, '=')[1]
  }

  /** A supported version fits a requested one when either is a prefix of the other. */
  predicate Compatible(version: string, supported: string)
  {
    StartsWith(version, supported) || StartsWith(supported, version)
  }

  /** `spec` pins PyTorch to a version that some supported version fits. */
  predicate HasCompatible(spec: string, supportedVersions: seq<string>)
  {
    IsPytorchSpec(spec)
    && exists j :: 0 <= j < |supportedVersions| && Compatible(SpecVersion(spec), supportedVersions[j])
  }

  /**
   * `supportedVersions[j]` is the answer for `condaPackages[i]`: the i-th spec is the
   * first with any compatible version, and j is its first compatible version.
   */
  predicate IsChosenVersion(condaPackages: seq<string>, supportedVersions: seq<string>, i: int, j: int)
  {
    && 0 <= i < |condaPackages| && 0 <= j < |supportedVersions|
    && IsPytorchSpec(condaPackages[i])
    && Compatible(SpecVersion(condaPackages[i]), supportedVersions[j])
    && (forall i' :: 0 <= i' < i ==> !HasCompatible(condaPackages[i'], supportedVersions))
    && (forall j' :: 0 <= j' < j ==> !Compatible(SpecVersion(condaPackages[i]), supportedVersions[j']))
  }

  /**
   * `pytorch_version_from_conda_dependencies`, with the library's list of
   * supported versions passed in.
   */
  method PytorchVersionFromCondaDependencies(condaPackages: seq<string>, supportedVersions: seq<string>)
    returns (version: Option<string>)
    ensures version.None? <==>
      forall i :: 0 <= i < |condaPackages| ==> !HasCompatible(condaPackages[i], supportedVersions)
    ensures version.Some? ==>
      exists i, j :: IsChosenVersion(condaPackages, supportedVersions, i, j) && version.value == supportedVersions[j]
  {
    var i := 0;
    while i < |condaPackages|
      invariant 0 <= i <= |condaPackages|
      invariant forall i' :: 0 <= i' < i ==> !HasCompatible(condaPackages[i'], supportedVersions)
    {
      var spec := condaPackages[i];
      var components := Split(spec, '=');
      if |components| == 2 && components[0] == "pytorch" {
        var requested := components[1];
        var j := 0;
        while j < |supportedVersions|
          invariant 0 <= j <= |supportedVersions|
          invariant forall j' :: 0 <= j' < j ==> !Compatible(requested, supportedVersions[j'])
        {
          var supported := supportedVersions[j];
          if StartsWith(requested, supported) || StartsWith(supported, requested) {
            assert IsChosenVersion(condaPackages, supportedVersions, i, j);
            return Some(supported);
          }
          j := j + 1;
        }
      }
      i := i + 1;
    }
    return None;
  }

  /** A spec counts exactly when it reads "pytorch=" followed by a version without '='. */
  lemma PytorchSpecShape(spec: string)
    ensures IsPytorchSpec(spec) <==> StartsWith(spec, "pytorch=") && '=' !in spec[8..]
    ensures IsPytorchSpec(spec) ==> SpecVersion(spec) == spec[8..]
  {
    SplitInTwo(spec, '=');
    PytorchPrefix(spec);
    var i := Find(spec, '=');
    if IsPytorchSpec(spec) {
      assert Split(spec, '=')[0] == spec[..i];
      assert |spec[..i]| == 7;
    }
  }

  /** A spec starts with "pytorch=" exactly when its first '=' follows "pytorch". */
  lemma PytorchPrefix(spec: string)
    ensures StartsWith(spec, "pytorch=") <==> Find(spec, '=') == 7 && spec[..7] == "pytorch"
  {
    var i := Find(spec, '=');
    if StartsWith(spec, "pytorch=") {
      assert spec[..8][7] == '=';
      assert spec[..7] == spec[..8][..7];
      assert '=' !in spec[..7];
    }
    if i == 7 && spec[..7] == "pytorch" {
      assert spec[..8] == spec[..7] + [spec[7]];
    }
  }

  /** Specs pinned with a comparison operator such as "==" or ">=" never select a version. */
  lemma OperatorSpecsNeverMatch(version: string)
    ensures !IsPytorchSpec("pytorch==" + version)
    ensures !IsPytorchSpec("pytorch>=" + version)
  {
    var exact := "pytorch==" + version;
    PytorchSpecShape(exact);
    assert exact[8..][0] == '=';
    var atLeast := "pytorch>=" + version;
    PytorchSpecShape(atLeast);
    assert atLeast[7] == '>';
  }

  // ---------------------------------------------------------------------------
  // Selecting a model's files by name

  /** The positions, in iteration order, of the files whose name (ignoring folders) is `baseName`. */
  function MatchingIndices(modelFiles: seq<(string, string)>, baseName: string): (indices: seq<nat>)
    ensures forall k :: 0 <= k < |indices| ==> indices[k] < |modelFiles|
    decreases |modelFiles|
  {
    if |modelFiles| == 0 then []
    else
      var n := |modelFiles| - 1;
      var before := MatchingIndices(modelFiles[..n], baseName);
      if BaseName(modelFiles[n].0) == baseName then before + [n] else before
  }

  /** Every selected position holds a file named `baseName`. */
  lemma {:induction false} SelectedFilesMatch(modelFiles: seq<(string, string)>, baseName: string)
    ensures forall k :: 0 <= k < |MatchingIndices(modelFiles, baseName)| ==>
      BaseName(modelFiles[MatchingIndices(modelFiles, baseName)[k]].0) == baseName
    decreases |modelFiles|
  {
    if |modelFiles| > 0 {
      var n := |modelFiles| - 1;
      var prefix := modelFiles[..n];
      SelectedFilesMatch(prefix, baseName);
      var before := MatchingIndices(prefix, baseName);
      var indices := MatchingIndices(modelFiles, baseName);
      assert indices == before + (if BaseName(modelFiles[n].0) == baseName then [n] else []);
      forall k | 0 <= k < |indices|
        ensures BaseName(modelFiles[indices[k]].0) == baseName
      {
        if k < |before| {
          assert indices[k] == before[k];
          assert prefix[before[k]] == modelFiles[before[k]];
        } else {
          assert indices[k] == n && BaseName(modelFiles[n].0) == baseName;
        }
      }
    }
  }

  /** The selected positions keep the files' order, each at most once. */
  lemma {:induction false} SelectedInOrder(modelFiles: seq<(string, string)>, baseName: string)
    ensures forall k, l :: 0 <= k < l < |MatchingIndices(modelFiles, baseName)| ==>
      MatchingIndices(modelFiles, baseName)[k] < MatchingIndices(modelFiles, baseName)[l]
    decreases |modelFiles|
  {
    if |modelFiles| > 0 {
      var n := |modelFiles| - 1;
      var prefix := modelFiles[..n];
      SelectedInOrder(prefix, baseName);
      var before := MatchingIndices(prefix, baseName);
      var indices := MatchingIndices(modelFiles, baseName);
      assert indices == before + (if BaseName(modelFiles[n].0) == baseName then [n] else []);
      forall k, l | 0 <= k < l < |indices|
        ensures indices[k] < indices[l]
      {
        assert indices[k] == before[k] && before[k] < n;
        if l < |before| {
          assert indices[l] == before[l];
          assert before[k] < before[l];
        } else {
          assert indices[l] == n;
        }
      }
    }
  }

  /** Every file named `baseName` is selected. */
  lemma {:induction false} AllMatchesSelected(modelFiles: seq<(string, string)>, baseName: string)
    ensures forall i :: 0 <= i < |modelFiles| && BaseName(modelFiles[i].0) == baseName ==>
      i in MatchingIndices(modelFiles, baseName)
    decreases |modelFiles|
  {
    if |modelFiles| > 0 {
      var n := |modelFiles| - 1;
      var prefix := modelFiles[..n];
      AllMatchesSelected(prefix, baseName);
      var before := MatchingIndices(prefix, baseName);
      var indices := MatchingIndices(modelFiles, baseName);
      assert indices == before + (if BaseName(modelFiles[n].0) == baseName then [n] else []);
      forall i | 0 <= i < |modelFiles| && BaseName(modelFiles[i].0) == baseName
        ensures i in indices
      {
        if i < n {
          assert prefix[i] == modelFiles[i];
          assert i in before;
        }
      }
    }
  }

  /** Looking at one more file appends its position when its name matches. */
  lemma MatchingIndicesStep(modelFiles: seq<(string, string)>, baseName: string, i: nat)
    requires i < |modelFiles|
    ensures MatchingIndices(modelFiles[..i + 1], baseName) ==
      MatchingIndices(modelFiles[..i], baseName) + (if BaseName(modelFiles[i].0) == baseName then [i] else [])
  {
    assert modelFiles[..i + 1][..i] == modelFiles[..i];
  }

  /** No file is selected exactly when no file has the name. */
  lemma NothingMatchesIffEmpty(modelFiles: seq<(string, string)>, baseName: string)
    ensures MatchingIndices(modelFiles, baseName) == [] <==>
      forall i :: 0 <= i < |modelFiles| ==> BaseName(modelFiles[i].0) != baseName
  {
    SelectedFilesMatch(modelFiles, baseName);
    AllMatchesSelected(modelFiles, baseName);
    var indices := MatchingIndices(modelFiles, baseName);
    if indices != [] {
      assert BaseName(modelFiles[indices[0]].0) == baseName;
    }
  }

  /**
   * The URL as logged: cut before the first '?' when that '?' is not the
   * first character; otherwise unchanged.
   */
  function TrimUrl(url: string): (logged: string)
    ensures StartsWith(url, logged)
    ensures '?' !in url || url[0] == '?' ==> logged == url
    ensures '?' in url && url[0] != '?' ==> '?' !in logged && url[|logged|] == '?'
  {
    var index := Find(url, '?');
    if index > 0 then url[..index] else url
  }

  /** A line written to the log by `download_files_from_model`. */
  datatype LogLine =
    | Downloaded(path: string, url: string)   // info: a file and the URL it came from
    | NoFilesFound(baseName: string)          // warning: nothing had the name

  /**
   * `download_files_from_model`: for each file of the model, in iteration
   * order, whose name is `baseName`, fetch its URL into `dirPath / path`.
   * Returns the target paths, the URLs fetched (in full) and the log lines
   * (with the URLs trimmed).
   */
  method DownloadFilesFromModel(modelSasUrls: seq<(string, string)>, baseName: string, dirPath: Path)
    returns (downloaded: seq<Path>, fetched: seq<string>, log: seq<LogLine>)
    ensures var indices := MatchingIndices(modelSasUrls, baseName);
      && |downloaded| == |indices| && |fetched| == |indices|
      && (forall k :: 0 <= k < |indices| ==>
            && downloaded[k] == Join(dirPath, modelSasUrls[indices[k]].0)
            && fetched[k] == modelSasUrls[indices[k]].1)
    ensures var indices := MatchingIndices(modelSasUrls, baseName);
      && |log| == |indices| + (if indices == [] then 1 else 0)
      && (forall k :: 0 <= k < |indices| ==>
            log[k] == Downloaded(modelSasUrls[indices[k]].0, TrimUrl(modelSasUrls[indices[k]].1)))
      && (indices == [] ==> log == [NoFilesFound(baseName)])
  {
    downloaded, fetched, log := [], [], [];
    var i := 0;
    while i < |modelSasUrls|
      invariant 0 <= i <= |modelSasUrls|
      invariant Recorded(modelSasUrls, dirPath, MatchingIndices(modelSasUrls[..i], baseName), downloaded, fetched, log)
    {
      var path, url := modelSasUrls[i].0, modelSasUrls[i].1;
      ghost var indices := MatchingIndices(modelSasUrls[..i], baseName);
      MatchingIndicesStep(modelSasUrls, baseName, i);
      if BaseName(path) == baseName {
        RecordedAppend(modelSasUrls, dirPath, indices, downloaded, fetched, log, i);
        var targetPath := Join(dirPath, path);
        fetched := fetched + [url];
        var index := Find(url, '?');
        if index > 0 {
          url := url[..index];
        }
        assert url == TrimUrl(modelSasUrls[i].1);
        log := log + [Downloaded(path, url)];
        downloaded := downloaded + [targetPath];
        assert MatchingIndices(modelSasUrls[..i + 1], baseName) == indices + [i];
      } else {
        assert MatchingIndices(modelSasUrls[..i + 1], baseName) == indices;
      }
      i := i + 1;
    }
    assert modelSasUrls[..i] == modelSasUrls;
    if downloaded == [] {
      log := log + [NoFilesFound(baseName)];
    }
  }

  /** Entry k of each list records the k-th selected file: its target path, its URL and its log line. */
  predicate Recorded(
    modelSasUrls: seq<(string, string)>, dirPath: Path, indices: seq<nat>,
    downloaded: seq<Path>, fetched: seq<string>, log: seq<LogLine>)
  {
    && |downloaded| == |indices| && |fetched| == |indices| && |log| == |indices|
    && forall k :: 0 <= k < |indices| ==>
         && indices[k] < |modelSasUrls|
         && downloaded[k] == Join(dirPath, modelSasUrls[indices[k]].0)
         && fetched[k] == modelSasUrls[indices[k]].1
         && log[k] == Downloaded(modelSasUrls[indices[k]].0, TrimUrl(modelSasUrls[indices[k]].1))
  }

  /** Recording one more selected file keeps the lists in step. */
  lemma RecordedAppend(
    modelSasUrls: seq<(string, string)>, dirPath: Path, indices: seq<nat>,
    downloaded: seq<Path>, fetched: seq<string>, log: seq<LogLine>, i: nat)
    requires Recorded(modelSasUrls, dirPath, indices, downloaded, fetched, log)
    requires i < |modelSasUrls|
    ensures var (path, url) := modelSasUrls[i];
      Recorded(modelSasUrls, dirPath, indices + [i],
        downloaded + [Join(dirPath, path)], fetched + [url], log + [Downloaded(path, TrimUrl(url))])
  {
  }

  // ---------------------------------------------------------------------------
  // Laying out a submission

  /** What the gateway asks to run: the model, the image bytes and the experiment to file it under. */
  datatype SubmitForInferenceConfig = SubmitForInferenceConfig(modelId: string, imageData: seq<byte>, experimentName: string)

  /** A registered model, as the registry resolves it: its canonical id and its tags. */
  datatype Model = Model(id: string, tags: map<string, string>)

  /** Everything `submit_for_inference` prepares before handing the run to the experiment. */
  datatype Submission = Submission(
    rootFolder: Path,
    entryScript: Path,
    imagePath: Path,
    imageData: seq<byte>,
    scriptParams: seq<string>,
    environmentName: string,
    experimentName: string)

  /** Where the image is staged: `root / "data" / "imagedata.zip"`. */
  function ImagePath(root: Path): Path
  {
    Join(Join(root, DefaultDataFolder), ImageDataFileName)
  }

  /** The scoring script's command line, naming the data folder and image relative to the job root. */
  function ScriptParams(modelId: string, imagePath: Path): seq<string>
  {
    ["--model-folder", ".",
     "--model-id", modelId,
     ScoreScript,
     "--data_folder", Name(Parent(imagePath)),
     "--image_files", Name(imagePath),
     "--use_dicom", "True",
     "--model_id", modelId]
  }

  /** `model.tags.get("python_environment_name", "")`. */
  function EnvironmentName(tags: map<string, string>): (name: string)
    ensures PythonEnvironmentNameTag in tags ==> name == tags[PythonEnvironmentNameTag]
    ensures PythonEnvironmentNameTag !in tags ==> name == ""
  {
    if PythonEnvironmentNameTag in tags then tags[PythonEnvironmentNameTag] else ""
  }

  /**
   * The submission `submit_for_inference` builds in the temporary folder `root`
   * for the model the registry resolved, or the exception the lookup raised.
   */
  function PrepareSubmission(config: SubmitForInferenceConfig, model: Result<Model, Exception>, root: Path)
    : Result<Submission, Exception>
  {
    match model
    case Failure(e) => Failure(e)
    case Success(m) =>
      var imagePath := ImagePath(root);
      Success(Submission(
        root,
        Join(root, RunScoringScript),
        imagePath,
        config.imageData,
        ScriptParams(m.id, imagePath),
        EnvironmentName(m.tags),
        config.experimentName))
  }

  /** `flag` occurs in `args` immediately followed by `value`. */
  predicate FollowedBy(args: seq<string>, flag: string, value: string)
  {
    exists i :: 0 <= i < |args| - 1 && args[i] == flag && args[i + 1] == value
  }

  /** The image lands in `data/imagedata.zip` under the submission root. */
  lemma ImagePathLayout(root: Path)
    ensures ImagePath(root) == Path(root.absolute, root.parts + [DefaultDataFolder] + [ImageDataFileName])
    ensures Name(ImagePath(root)) == ImageDataFileName
    ensures Name(Parent(ImagePath(root))) == DefaultDataFolder
  {
    JoinName(root, DefaultDataFolder);
    JoinName(Join(root, DefaultDataFolder), ImageDataFileName);
  }

  /**
   * The scoring arguments carry the model id after both "--model-id" and
   * "--model_id", the image's folder name after "--data_folder", its file
   * name after "--image_files", and "True" after "--use_dicom".
   */
  lemma ScriptParamsFlags(modelId: string, imagePath: Path)
    ensures var args := ScriptParams(modelId, imagePath);
      && FollowedBy(args, "--model-id", modelId)
      && FollowedBy(args, "--model_id", modelId)
      && FollowedBy(args, "--data_folder", Name(Parent(imagePath)))
      && FollowedBy(args, "--image_files", Name(imagePath))
      && FollowedBy(args, "--use_dicom", "True")
  {
    var args := ScriptParams(modelId, imagePath);
    assert args[2] == "--model-id" && args[3] == modelId;
    assert args[11] == "--model_id" && args[12] == modelId;
    assert args[5] == "--data_folder" && args[6] == Name(Parent(imagePath));
    assert args[7] == "--image_files" && args[8] == Name(imagePath);
    assert args[9] == "--use_dicom" && args[10] == "True";
  }

  /**
   * A resolved model yields a submission that stages the request's bytes at
   * `root/data/imagedata.zip`, passes the resolved model id after both
   * "--model-id" and "--model_id", the folder "data", the file "imagedata.zip"
   * and "--use_dicom True", and uses the model's environment tag (or "").
   * A failed lookup is passed on unchanged.
   */
  lemma SubmissionLayout(config: SubmitForInferenceConfig, model: Result<Model, Exception>, root: Path)
    ensures model.Failure? ==> PrepareSubmission(config, model, root) == Failure(model.error)
    ensures model.Success? ==>
      var r := PrepareSubmission(config, model, root);
      && r.Success?
      && r.value.imagePath.parts == root.parts + ["data"] + ["imagedata.zip"]
      && r.value.imageData == config.imageData
      && r.value.experimentName == config.experimentName
      && FollowedBy(r.value.scriptParams, "--model-id", model.value.id)
      && FollowedBy(r.value.scriptParams, "--model_id", model.value.id)
      && FollowedBy(r.value.scriptParams, "--data_folder", "data")
      && FollowedBy(r.value.scriptParams, "--image_files", "imagedata.zip")
      && FollowedBy(r.value.scriptParams, "--use_dicom", "True")
      && r.value.environmentName == (if "python_environment_name" in model.value.tags
                                     then model.value.tags["python_environment_name"] else "")
  {
    if model.Success? {
      ImagePathLayout(root);
      ScriptParamsFlags(model.value.id, ImagePath(root));
    }
  }
}
