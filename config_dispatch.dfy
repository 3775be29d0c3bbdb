/**
 * The closed configuration choices of the Octo policy: which noise scheduler
 * to build (`_make_noise_scheduler`), which loss target the prediction type
 * selects (`compute_loss`), and which input is the single camera stream
 * (`OctoPolicy.__init__`). Anything outside the supported names is an error.
 */
module ConfigDispatch {
  import opened Wrappers

  /** The two diffusion schedulers, which differ only in their reverse-step formula. */
  datatype SchedulerKind = DDPM | DDIM

  /** What the action head is trained to predict. */
  datatype PredictionType = Epsilon | Sample

  datatype ConfigError =
    | UnsupportedNoiseScheduler(scheduler: string)
    | UnsupportedPredictionType(predictionType: string)
    | NotOneImageKey(imageKeys: seq<string>)

  function SchedulerName(k: SchedulerKind): string
  {
    match k
    case DDPM => "DDPM"
    case DDIM => "DDIM"
  }

  /** `_make_noise_scheduler`: only the names "DDPM" and "DDIM" are accepted. */
  function MakeNoiseScheduler(name: string): (r: Result<SchedulerKind, ConfigError>)
    ensures r.Success? <==> name == "DDPM" || name == "DDIM"
    ensures r.Success? ==> SchedulerName(r.value) == name
    ensures r.Failure? ==> r.error == UnsupportedNoiseScheduler(name)
  {
    if name == "DDPM" then Success(DDPM)
    else if name == "DDIM" then Success(DDIM)
    else Failure(UnsupportedNoiseScheduler(name))
  }

  /** Every scheduler is built from its own name, and only from it. */
  lemma SchedulerNameRoundTrip(k: SchedulerKind, name: string)
    ensures MakeNoiseScheduler(SchedulerName(k)) == Success(k)
    ensures MakeNoiseScheduler(name) == Success(k) ==> name == SchedulerName(k)
  {
  }

  function PredictionTypeName(p: PredictionType): string
  {
    match p
    case Epsilon => "epsilon"
    case Sample => "sample"
  }

  /**
   * The loss target of `compute_loss`: the sampled noise for "epsilon", the
   * clean action trajectory for "sample", an error for any other name.
   */
  function LossTarget<T>(predictionType: string, noise: T, trajectory: T): (r: Result<T, ConfigError>)
    ensures r.Success? <==> predictionType == "epsilon" || predictionType == "sample"
    ensures r.Failure? ==> r.error == UnsupportedPredictionType(predictionType)
  {
    if predictionType == "epsilon" then Success(noise)
    else if predictionType == "sample" then Success(trajectory)
    else Failure(UnsupportedPredictionType(predictionType))
  }

  /** Each prediction type names its own target: the noise or the trajectory. */
  lemma LossTargetOfType<T>(p: PredictionType, noise: T, trajectory: T)
    ensures LossTarget(PredictionTypeName(p), noise, trajectory)
         == Success(if p == Epsilon then noise else trajectory)
  {
  }

  const ImagePrefix: string := "observation.image"

  predicate IsImageKey(key: string)
  {
    |ImagePrefix| <= |key| && key[..|ImagePrefix|] == ImagePrefix
  }

  /** The input keys that start with "observation.image", in order. */
  function ImageKeys(keys: seq<string>): (r: seq<string>)
    ensures forall k :: k in r <==> k in keys && IsImageKey(k)
    ensures |r| <= |keys|
  {
    if keys == [] then []
    else if IsImageKey(keys[0]) then [keys[0]] + ImageKeys(keys[1..])
    else ImageKeys(keys[1..])
  }

  /** The filter keeps each image key as often as it occurs, and nothing else. */
  lemma {:induction false} ImageKeysCount(keys: seq<string>, k: string)
    ensures multiset(ImageKeys(keys))[k] == if IsImageKey(k) then multiset(keys)[k] else 0
    decreases |keys|
  {
    if keys != [] {
      ImageKeysCount(keys[1..], k);
      assert keys == [keys[0]] + keys[1..];
    }
  }

  /**
   * The filter keeps the order of the keys: filtering two runs of keys one
   * after the other is filtering each and concatenating, and a single key
   * is kept exactly when it is an image key.
   */
  lemma {:induction false} ImageKeysConcat(a: seq<string>, b: seq<string>)
    ensures ImageKeys(a + b) == ImageKeys(a) + ImageKeys(b)
    ensures |a| == 1 ==> ImageKeys(a) == if IsImageKey(a[0]) then a else []
    decreases |a|
  {
    if a != [] {
      var head := if IsImageKey(a[0]) then [a[0]] else [];
      assert (a + b)[0] == a[0] && (a + b)[1..] == a[1..] + b;
      assert ImageKeys(a + b) == head + ImageKeys(a[1..] + b);
      assert ImageKeys(a) == head + ImageKeys(a[1..]);
      ImageKeysConcat(a[1..], b);
      assert head + (ImageKeys(a[1..]) + ImageKeys(b)) == head + ImageKeys(a[1..]) + ImageKeys(b);
      if |a| == 1 {
        assert a[1..] == [];
      }
    } else {
      assert a + b == b;
    }
  }

  predicate Distinct(keys: seq<string>)
  {
    forall i, j :: 0 <= i < j < |keys| ==> keys[i] != keys[j]
  }

  /** Keys none of which is an image key filter to nothing. */
  lemma {:induction false} NoImageKeys(keys: seq<string>)
    requires forall k :: k in keys ==> !IsImageKey(k)
    ensures ImageKeys(keys) == []
    decreases |keys|
  {
    if keys != [] {
      assert forall k :: k in keys[1..] ==> k in keys;
      NoImageKeys(keys[1..]);
    }
  }

  /** `key` is an image key among `keys` and no other key is. */
  predicate UniqueImageKey(keys: seq<string>, key: string)
  {
    key in keys && IsImageKey(key) && forall k :: k in keys && IsImageKey(k) ==> k == key
  }

  /** Among distinct keys, a unique image key is all the filter keeps. */
  lemma {:induction false} OneImageKeyAmongDistinct(keys: seq<string>, key: string)
    requires Distinct(keys) && UniqueImageKey(keys, key)
    ensures ImageKeys(keys) == [key]
    decreases |keys|
  {
    var rest := keys[1..];
    assert forall k :: k in rest ==> k in keys;
    if keys[0] == key {
      assert forall k :: k in rest ==> k != key by {
        forall k | k in rest ensures k != key {
          var j :| 0 <= j < |rest| && rest[j] == k;
          assert keys[j + 1] == k;
        }
      }
      NoImageKeys(rest);
    } else {
      assert key in rest && UniqueImageKey(rest, key);
      assert Distinct(rest) by {
        forall i, j | 0 <= i < j < |rest| ensures rest[i] != rest[j] {
          assert rest[i] == keys[i + 1] && rest[j] == keys[j + 1];
        }
      }
      OneImageKeyAmongDistinct(rest, key);
    }
  }

  /** Among distinct keys, a filter that does not keep exactly one key means no key is the unique image key. */
  lemma NoUniqueImageKey(keys: seq<string>)
    requires Distinct(keys) && |ImageKeys(keys)| != 1
    ensures !exists key :: UniqueImageKey(keys, key)
  {
    if key :| UniqueImageKey(keys, key) {
      OneImageKeyAmongDistinct(keys, key);
      assert false;
    }
  }

  /** The policy handles exactly one camera stream: any other number of image keys is an error. */
  function InputImageKey(keys: seq<string>): (r: Result<string, ConfigError>)
    ensures r.Success? <==> |ImageKeys(keys)| == 1
    ensures r.Success? ==> UniqueImageKey(keys, r.value)
    ensures Distinct(keys) ==> (r.Success? <==> exists key :: UniqueImageKey(keys, key))
    ensures r.Failure? ==> r.error == NotOneImageKey(ImageKeys(keys))
  {
    var imageKeys := ImageKeys(keys);
    if |imageKeys| != 1 then
      if Distinct(keys) then
        NoUniqueImageKey(keys);
        Failure(NotOneImageKey(imageKeys))
      else
        Failure(NotOneImageKey(imageKeys))
    else
      assert imageKeys[0] in imageKeys;
      Success(imageKeys[0])
  }
}
